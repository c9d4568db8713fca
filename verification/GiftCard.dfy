/** A gift card from issue to expiry: balance, redemptions, reloads and freezes. */
module GiftCard {
  import opened Wrappers

  datatype Status = Active | Redeemed | PartiallyRedeemed | Expired | Cancelled | Frozen

  /** An entry of `redemption_history`. */
  datatype Redemption = Redemption(amount: int, remaining: int)

  /** Amounts in cents; unset counters are zero. `pinAttempts` counts wrong PINs. */
  datatype State = State(
    status: Status,
    initial: int, current: int, available: int,
    reloadable: bool, maxBalance: int, maxReload: Option<int>,
    totalReloaded: int, reloadCount: nat,
    redemptions: nat, totalRedeemed: int, history: seq<Redemption>,
    pinAttempts: nat, isFrozen: bool,
    neverExpires: bool, expiresAt: int
  )

  datatype Failure =
    | TooSmall | TooLarge | InvalidCode | IsFrozen | InvalidPin | HasExpired | InsufficientBalance
    | NotReloadable | OverMaximum | OverReloadMaximum

  const DEFAULT_MAXIMUM := 500000

  /** `issue`; a maximum balance that is missing or zero is the default. Nothing sets a reload maximum. */
  function Issued(amount: int, reloadable: bool, maxBalance: Option<int>, neverExpires: bool, expiresAt: int)
    : Result<State, Failure>
  {
    if amount < 500 then Throws(TooSmall)
    else if amount > 500000 then Throws(TooLarge)
    else
      var maximum := if maxBalance == None || maxBalance == Some(0) then DEFAULT_MAXIMUM else maxBalance.value;
      Ok(State(Active, amount, amount, amount, reloadable, maximum, None, 0, 0, 0, 0, [], 0, false, neverExpires, expiresAt))
  }

  /** The lookup by code finds only these. */
  predicate Usable(s: State) {
    s.status == Active || s.status == PartiallyRedeemed
  }

  predicate PastDate(s: State, now: int) {
    !s.neverExpires && s.expiresAt < now
  }

  function Min(a: int, b: int): int {
    if a < b then a else b
  }

  function Paid(s: State, amount: int): State {
    var paid := Min(amount, s.available);
    var left := s.current - paid;
    s.(current := left, available := left, redemptions := s.redemptions + 1, totalRedeemed := s.totalRedeemed + paid,
       history := s.history + [Redemption(paid, left)], status := if left <= 1 then Redeemed else PartiallyRedeemed,
       pinAttempts := 0)
  }

  /** `redeem`; some failures change the card too. */
  function RedeemStep(s: State, pinOk: bool, amount: int, now: int): (State, Option<Failure>) {
    if !Usable(s) then (s, Some(InvalidCode))
    else if s.isFrozen then (s, Some(IsFrozen))
    else if !pinOk then
      (s.(pinAttempts := s.pinAttempts + 1, isFrozen := s.pinAttempts + 1 >= 3), Some(InvalidPin))
    else if PastDate(s, now) then (s.(status := Expired), Some(HasExpired))
    else if Min(amount, s.available) <= 0 then (s, Some(InsufficientBalance))
    else (Paid(s, amount), None)
  }

  /** A missing reload maximum compares as zero. */
  function ReloadMaximum(s: State): int {
    if s.maxReload.Some? then s.maxReload.value else 0
  }

  /** `reload`, which looks neither at the PIN nor at the freeze. */
  function ReloadStep(s: State, amount: int): (State, Option<Failure>) {
    if !Usable(s) then (s, Some(InvalidCode))
    else if !s.reloadable then (s, Some(NotReloadable))
    else if s.current + amount > s.maxBalance then (s, Some(OverMaximum))
    else if amount > ReloadMaximum(s) then (s, Some(OverReloadMaximum))
    else (s.(current := s.current + amount, available := s.current + amount,
             totalReloaded := s.totalReloaded + amount, reloadCount := s.reloadCount + 1, status := Active), None)
  }

  function FreezeStep(s: State): State {
    s.(isFrozen := true, status := Frozen)
  }

  /** `unfreeze`, whatever the status was. */
  function UnfreezeStep(s: State): State {
    s.(isFrozen := false, status := if s.current > 0 then Active else Redeemed)
  }

  function CancelStep(s: State): State {
    s.(status := Cancelled)
  }

  function ExpireStep(s: State, now: int): State {
    if Usable(s) && PastDate(s, now) then s.(status := Expired) else s
  }

  /**
   * A redemption as it is promised: the first obstacle in this order decides, a
   * wrong PIN and a passed date leave their mark, and a payment is entered.
   */
  ghost predicate RedeemedAs(s: State, t: State, failure: Option<Failure>, pinOk: bool, amount: int, now: int) {
    var paid := if amount < s.available then amount else s.available;
    if s.status != Active && s.status != PartiallyRedeemed then t == s && failure == Some(InvalidCode)
    else if s.isFrozen then t == s && failure == Some(IsFrozen)
    else if !pinOk then
      failure == Some(InvalidPin) && t == s.(pinAttempts := s.pinAttempts + 1, isFrozen := s.pinAttempts >= 2)
    else if !s.neverExpires && s.expiresAt < now then failure == Some(HasExpired) && t == s.(status := Expired)
    else if amount <= 0 || s.available <= 0 then t == s && failure == Some(InsufficientBalance)
    else
      && failure == None
      && t.current == t.available == s.current - paid && t.totalRedeemed == s.totalRedeemed + paid
      && t.history == s.history + [Redemption(paid, s.current - paid)] && t.redemptions == s.redemptions + 1
      && t.status == (if s.current - paid > 1 then PartiallyRedeemed else Redeemed)
      && t.pinAttempts == 0 && !t.isFrozen
      && t.initial == s.initial && t.reloadable == s.reloadable && t.maxBalance == s.maxBalance
      && t.maxReload == s.maxReload && t.totalReloaded == s.totalReloaded && t.reloadCount == s.reloadCount
      && t.neverExpires == s.neverExpires && t.expiresAt == s.expiresAt
  }

  lemma StepIsRedeemedAs(s: State, pinOk: bool, amount: int, now: int)
    ensures var (t, failure) := RedeemStep(s, pinOk, amount, now); RedeemedAs(s, t, failure, pinOk, amount, now)
  {
  }

  /** A reload, likewise; it makes a card active again and touches nothing but the balance and its own counters. */
  ghost predicate ReloadedAs(s: State, t: State, failure: Option<Failure>, amount: int) {
    if s.status != Active && s.status != PartiallyRedeemed then t == s && failure == Some(InvalidCode)
    else if !s.reloadable then t == s && failure == Some(NotReloadable)
    else if amount > s.maxBalance - s.current then t == s && failure == Some(OverMaximum)
    else if (s.maxReload == None && amount > 0) || (s.maxReload.Some? && amount > s.maxReload.value) then
      t == s && failure == Some(OverReloadMaximum)
    else
      && failure == None
      && t == s.(current := s.current + amount, available := s.current + amount, status := Active,
                 totalReloaded := s.totalReloaded + amount, reloadCount := s.reloadCount + 1)
  }

  /** Cards from 5.00 to 5,000.00 are issued, active, with their whole amount available and nothing counted yet. */
  lemma IssuedIff(amount: int, reloadable: bool, maxBalance: Option<int>, neverExpires: bool, expiresAt: int)
    ensures var r := Issued(amount, reloadable, maxBalance, neverExpires, expiresAt);
            && (r.Ok? <==> 500 <= amount <= 500000)
            && (amount < 500 ==> r == Throws(TooSmall)) && (amount > 500000 ==> r == Throws(TooLarge))
            && (r.Ok? ==>
                  var s := r.value;
                  && s.status == Active && s.initial == s.current == s.available == amount
                  && s.reloadable == reloadable && s.neverExpires == neverExpires && s.expiresAt == expiresAt
                  && s.maxBalance == (if maxBalance.Some? && maxBalance.value != 0 then maxBalance.value else 500000)
                  && s.maxReload == None && s.totalReloaded == s.totalRedeemed == 0
                  && s.reloadCount == s.redemptions == s.pinAttempts == 0 && s.history == [] && !s.isFrozen)
  {
  }

  datatype Event =
    | Redeem(pinOk: bool, amount: int, now: int)
    | Reload(amount: int)
    | Freeze
    | Unfreeze
    | Cancel
    | Expire(now: int)

  function Next(s: State, e: Event): State {
    match e
    case Redeem(pinOk, amount, now) => RedeemStep(s, pinOk, amount, now).0
    case Reload(amount) => ReloadStep(s, amount).0
    case Freeze => FreezeStep(s)
    case Unfreeze => UnfreezeStep(s)
    case Cancel => CancelStep(s)
    case Expire(now) => ExpireStep(s, now)
  }

  class Card {
    var status: Status
    const initial: int
    var current: int
    var available: int
    const reloadable: bool
    const maxBalance: int
    const maxReload: Option<int>
    var totalReloaded: int
    var reloadCount: nat
    var redemptions: nat
    var totalRedeemed: int
    var history: seq<Redemption>
    var pinAttempts: nat
    var isFrozen: bool
    const neverExpires: bool
    const expiresAt: int

    ghost function View(): State
      reads this
    {
      State(status, initial, current, available, reloadable, maxBalance, maxReload, totalReloaded, reloadCount,
            redemptions, totalRedeemed, history, pinAttempts, isFrozen, neverExpires, expiresAt)
    }

    constructor (s: State)
      ensures View() == s
    {
      status, initial, current, available := s.status, s.initial, s.current, s.available;
      reloadable, maxBalance, maxReload := s.reloadable, s.maxBalance, s.maxReload;
      totalReloaded, reloadCount := s.totalReloaded, s.reloadCount;
      redemptions, totalRedeemed, history := s.redemptions, s.totalRedeemed, s.history;
      pinAttempts, isFrozen, neverExpires, expiresAt := s.pinAttempts, s.isFrozen, s.neverExpires, s.expiresAt;
    }

    method Redeem(pinOk: bool, amount: int, now: int) returns (failure: Option<Failure>)
      modifies this
      ensures (View(), failure) == RedeemStep(old(View()), pinOk, amount, now)
      ensures View() == Next(old(View()), Event.Redeem(pinOk, amount, now))
      ensures RedeemedAs(old(View()), View(), failure, pinOk, amount, now)
    {
      StepIsRedeemedAs(View(), pinOk, amount, now);
      if status != Active && status != PartiallyRedeemed {
        return Some(InvalidCode);
      }
      if isFrozen {
        return Some(IsFrozen);
      }
      if !pinOk {
        pinAttempts := pinAttempts + 1;
        if pinAttempts >= 3 {
          isFrozen := true;
        }
        return Some(InvalidPin);
      }
      if !neverExpires && expiresAt < now {
        status := Expired;
        return Some(HasExpired);
      }
      var redeemAmount := Min(amount, available);
      if redeemAmount <= 0 {
        return Some(InsufficientBalance);
      }
      var newBalance := current - redeemAmount;
      history := history + [Redemption(redeemAmount, newBalance)];
      current, available := newBalance, newBalance;
      redemptions, totalRedeemed := redemptions + 1, totalRedeemed + redeemAmount;
      status := if newBalance <= 1 then Redeemed else PartiallyRedeemed;
      pinAttempts := 0;
      failure := None;
    }

    method Reload(amount: int) returns (failure: Option<Failure>)
      modifies this
      ensures (View(), failure) == ReloadStep(old(View()), amount)
      ensures View() == Next(old(View()), Event.Reload(amount))
      ensures ReloadedAs(old(View()), View(), failure, amount)
    {
      if status != Active && status != PartiallyRedeemed {
        return Some(InvalidCode);
      }
      if !reloadable {
        return Some(NotReloadable);
      }
      var newBalance := current + amount;
      if newBalance > maxBalance {
        return Some(OverMaximum);
      }
      if amount > (if maxReload.Some? then maxReload.value else 0) {
        return Some(OverReloadMaximum);
      }
      current, available := newBalance, newBalance;
      totalReloaded, reloadCount := totalReloaded + amount, reloadCount + 1;
      status := Active;
      failure := None;
    }

    method Freeze()
      modifies this
      ensures View() == Next(old(View()), Event.Freeze) == old(View()).(isFrozen := true, status := Frozen)
    {
      isFrozen, status := true, Frozen;
    }

    method Unfreeze()
      modifies this
      ensures View() == Next(old(View()), Event.Unfreeze)
           == old(View()).(isFrozen := false, status := if old(current) > 0 then Active else Redeemed)
    {
      isFrozen := false;
      status := if current > 0 then Active else Redeemed;
    }

    method Cancel()
      modifies this
      ensures View() == Next(old(View()), Event.Cancel) == old(View()).(status := Cancelled)
    {
      status := Cancelled;
    }

    method ProcessExpiry(now: int)
      modifies this
      ensures View() == Next(old(View()), Expire(now))
      ensures View() == if && (old(status) == Active || old(status) == PartiallyRedeemed)
                           && !neverExpires && expiresAt < now
                        then old(View()).(status := Expired) else old(View())
    {
      if (status == Active || status == PartiallyRedeemed) && !neverExpires && expiresAt < now {
        status := Expired;
      }
    }
  }

  // ---------- Runs ----------

  function After(s: State, events: seq<Event>): State
    decreases |events|
  {
    if events == [] then s else After(Next(s, events[0]), events[1..])
  }

  predicate PositiveReloads(events: seq<Event>) {
    forall e <- events :: e.Reload? ==> e.amount > 0
  }

  function Sum(history: seq<Redemption>): int
    decreases |history|
  {
    if history == [] then 0 else Sum(history[..|history| - 1]) + history[|history| - 1].amount
  }

  lemma SumAppend(history: seq<Redemption>, r: Redemption)
    ensures Sum(history + [r]) == Sum(history) + r.amount
  {
    assert (history + [r])[..|history|] == history;
  }

  /** The money on the card and the money taken off it are the money put on it. */
  ghost predicate Conserved(s: State) {
    && s.current + s.totalRedeemed == s.initial + s.totalReloaded
    && s.available == s.current && s.current >= 0
    && Sum(s.history) == s.totalRedeemed && |s.history| == s.redemptions
    && (forall r <- s.history :: r.amount > 0 && r.remaining >= 0)
    && (s.status == PartiallyRedeemed ==> s.current > 1)
    && (s.status == Redeemed ==> s.current <= 1)
  }

  lemma PaidConserves(s: State, amount: int)
    requires Conserved(s) && amount > 0 && s.current > 0
    ensures Conserved(Paid(s, amount)) && Paid(s, amount).current <= s.current
  {
    var paid := Min(amount, s.available);
    SumAppend(s.history, Redemption(paid, s.current - paid));
  }

  lemma OtherStepConserves(s: State, e: Event)
    requires Conserved(s) && !e.Redeem? && (e.Reload? ==> e.amount > 0)
    ensures Conserved(Next(s, e))
    ensures s.current <= s.maxBalance ==> Next(s, e).current <= Next(s, e).maxBalance
  {
  }

  lemma StepConserves(s: State, e: Event)
    requires Conserved(s) && (e.Reload? ==> e.amount > 0)
    ensures Conserved(Next(s, e))
    ensures s.current <= s.maxBalance ==> Next(s, e).current <= Next(s, e).maxBalance
  {
    match e
    case Redeem(_, amount, _) =>
      if Min(amount, s.available) > 0 {
        PaidConserves(s, amount);
      }
    case _ => OtherStepConserves(s, e);
  }

  lemma {:induction false} RunConserves(s: State, events: seq<Event>)
    requires Conserved(s) && PositiveReloads(events)
    ensures Conserved(After(s, events))
    ensures s.current <= s.maxBalance ==> After(s, events).current <= After(s, events).maxBalance
    decreases |events|
  {
    if events != [] {
      assert events[0] in events && forall e <- events[1..] :: e in events;
      StepConserves(s, events[0]);
      RunConserves(Next(s, events[0]), events[1..]);
    }
  }

  /** After any run from the issue on, no money appears or disappears. */
  lemma CardsConserveMoney(amount: int, reloadable: bool, maxBalance: Option<int>, neverExpires: bool, expiresAt: int,
                           events: seq<Event>)
    requires Issued(amount, reloadable, maxBalance, neverExpires, expiresAt).Ok? && PositiveReloads(events)
    ensures Conserved(After(Issued(amount, reloadable, maxBalance, neverExpires, expiresAt).value, events))
  {
    RunConserves(Issued(amount, reloadable, maxBalance, neverExpires, expiresAt).value, events);
  }

  lemma {:induction false} MaximumIsFixed(s: State, events: seq<Event>)
    ensures After(s, events).maxBalance == s.maxBalance && After(s, events).maxReload == s.maxReload
    decreases |events|
  {
    if events != [] {
      MaximumIsFixed(Next(s, events[0]), events[1..]);
    }
  }

  /** The balance stays within the maximum over every run exactly when the card was issued within it. */
  lemma WithinMaximumIff(amount: int, reloadable: bool, maxBalance: Option<int>, neverExpires: bool, expiresAt: int)
    requires Issued(amount, reloadable, maxBalance, neverExpires, expiresAt).Ok?
    ensures var s := Issued(amount, reloadable, maxBalance, neverExpires, expiresAt).value;
            (forall events | PositiveReloads(events) :: After(s, events).current <= s.maxBalance)
            <==> amount <= s.maxBalance
  {
    var s := Issued(amount, reloadable, maxBalance, neverExpires, expiresAt).value;
    if amount <= s.maxBalance {
      forall events | PositiveReloads(events) ensures After(s, events).current <= s.maxBalance {
        RunConserves(s, events);
        MaximumIsFixed(s, events);
      }
    } else {
      assert PositiveReloads([]) && After(s, []) == s;
    }
  }

  // ---------- What it takes to spend and to reload ----------

  /** A redemption goes through exactly under these conditions, and takes at most what is there. */
  lemma RedeemedIff(s: State, pinOk: bool, amount: int, now: int)
    requires Conserved(s)
    ensures var (t, failure) := RedeemStep(s, pinOk, amount, now);
            && (failure == None <==>
                  Usable(s) && !s.isFrozen && pinOk && !PastDate(s, now) && amount > 0 && s.current > 0)
            && (failure == None ==> t.totalRedeemed - s.totalRedeemed == Min(amount, s.current))
            && (failure != None ==> t.current == s.current && t.totalRedeemed == s.totalRedeemed)
  {
  }

  /** There is room under the maximum balance, and a positive reload maximum. */
  predicate CanReload(s: State) {
    s.reloadable && s.current < s.maxBalance && ReloadMaximum(s) > 0
  }

  /** Some positive amount can be loaded exactly onto a usable card with a reload maximum, and room. */
  lemma ReloadableIff(s: State)
    ensures (exists amount :: amount > 0 && ReloadStep(s, amount).1 == None) <==> Usable(s) && CanReload(s)
  {
    if Usable(s) && CanReload(s) {
      assert ReloadStep(s, 1).1 == None;
    }
  }

  /** Without a reload maximum no positive reload goes through. */
  lemma {:induction false} NoReloadWithoutMaximum(s: State, events: seq<Event>)
    requires s.maxReload == None && PositiveReloads(events)
    ensures After(s, events).totalReloaded == s.totalReloaded && After(s, events).reloadCount == s.reloadCount
    decreases |events|
  {
    if events != [] {
      assert events[0] in events && forall e <- events[1..] :: e in events;
      NoReloadWithoutMaximum(Next(s, events[0]), events[1..]);
    }
  }

  /** `issue` sets no reload maximum, so in no reachable state does a card take a positive reload, reloadable or not. */
  lemma IssuedCardsTakeNoReload(amount: int, reloadable: bool, maxBalance: Option<int>, neverExpires: bool,
                                expiresAt: int, events: seq<Event>)
    requires Issued(amount, reloadable, maxBalance, neverExpires, expiresAt).Ok?
    ensures var s := Issued(amount, reloadable, maxBalance, neverExpires, expiresAt).value;
            forall a :: a > 0 ==> ReloadStep(After(s, events), a).1 != None
  {
    var s := Issued(amount, reloadable, maxBalance, neverExpires, expiresAt).value;
    MaximumIsFixed(s, events);
    ReloadableIff(After(s, events));
  }

  // ---------- When money moves ----------

  /** Reloads of positive amounts, and no unfreezing. */
  predicate WithoutUnfreeze(events: seq<Event>) {
    forall e <- events :: !e.Unfreeze? && (e.Reload? ==> e.amount > 0)
  }

  predicate NotBefore(e: Event, t: int) {
    (e.Redeem? ==> e.now >= t) && (e.Expire? ==> e.now >= t)
  }

  /** Nothing happens before `t`. */
  predicate From(events: seq<Event>, t: int) {
    forall e <- events :: NotBefore(e, t)
  }

  predicate Moved(s: State, t: State) {
    t.current != s.current || t.totalRedeemed != s.totalRedeemed || t.totalReloaded != s.totalReloaded
  }

  /** At `t` the card can pay or be reloaded. */
  predicate Movable(s: State, t: int) {
    Usable(s) && ((!s.isFrozen && s.current > 0 && !PastDate(s, t)) || CanReload(s))
  }

  lemma StuckStep(s: State, e: Event, t: int)
    requires Conserved(s) && !Movable(s, t) && !e.Unfreeze? && (e.Reload? ==> e.amount > 0) && NotBefore(e, t)
    ensures !Movable(Next(s, e), t) && !Moved(s, Next(s, e))
  {
  }

  lemma {:induction false} StuckStays(s: State, events: seq<Event>, t: int)
    requires Conserved(s) && !Movable(s, t) && WithoutUnfreeze(events) && From(events, t)
    ensures !Moved(s, After(s, events))
    decreases |events|
  {
    if events != [] {
      assert events[0] in events && forall e <- events[1..] :: e in events;
      StuckStep(s, events[0], t);
      StepConserves(s, events[0]);
      StuckStays(Next(s, events[0]), events[1..], t);
    }
  }

  lemma MovableMoves(s: State, t: int) returns (e: Event)
    requires Conserved(s) && Movable(s, t)
    ensures WithoutUnfreeze([e]) && From([e], t) && Moved(s, After(s, [e]))
  {
    e := if CanReload(s) then Reload(1) else Redeem(true, 1, t);
    assert [e][1..] == [];
    assert After(s, [e]) == After(Next(s, e), []) == Next(s, e);
  }

  /**
   * From `t` on, until it is unfrozen, money can move on a card exactly when it
   * is found by its code and either is not frozen, holds money and has not
   * expired at `t`, or can be reloaded. Reloading looks neither at the flag that
   * wrong PINs set nor at the expiry date.
   */
  lemma MovesMoneyFromIff(s: State, t: int)
    requires Conserved(s)
    ensures (exists events :: WithoutUnfreeze(events) && From(events, t) && Moved(s, After(s, events)))
       <==> Usable(s) && ((!s.isFrozen && s.current > 0 && !PastDate(s, t)) || CanReload(s))
  {
    if Movable(s, t) {
      var e := MovableMoves(s, t);
    } else {
      forall events | WithoutUnfreeze(events) && From(events, t) ensures !Moved(s, After(s, events)) {
        StuckStays(s, events, t);
      }
    }
  }

  /** Until it is unfrozen, a frozen card pays nothing, whatever is loaded onto it. */
  lemma {:induction false} FrozenPaysNothing(s: State, events: seq<Event>)
    requires s.isFrozen && forall e <- events :: !e.Unfreeze?
    ensures var t := After(s, events);
            t.isFrozen && t.totalRedeemed == s.totalRedeemed && t.history == s.history
    decreases |events|
  {
    if events != [] {
      assert events[0] in events && forall e <- events[1..] :: e in events;
      FrozenPaysNothing(Next(s, events[0]), events[1..]);
    }
  }

  /** A card with status redeemed, expired, cancelled or frozen moves no money until it is unfrozen. */
  lemma {:induction false} UnusableUntilUnfrozen(s: State, events: seq<Event>)
    requires !Usable(s) && forall e <- events :: !e.Unfreeze?
    ensures var t := After(s, events);
            !Usable(t) && t.current == s.current && t.totalRedeemed == s.totalRedeemed && t.history == s.history
    decreases |events|
  {
    if events != [] {
      assert events[0] in events && forall e <- events[1..] :: e in events;
      UnusableUntilUnfrozen(Next(s, events[0]), events[1..]);
    }
  }

  /** Unfreezing revives any card that still has money on it, a cancelled or expired one included. */
  lemma UnfreezeRevivesIff(s: State)
    requires Conserved(s)
    ensures Usable(UnfreezeStep(CancelStep(s))) <==> s.current > 0
  {
  }

  /** Attempts to redeem with a wrong PIN, of any amounts at any times. */
  predicate WrongPins(events: seq<Event>) {
    forall e <- events :: e.Redeem? && !e.pinOk
  }

  lemma {:induction false} FrozenIgnoresPins(s: State, events: seq<Event>)
    requires Usable(s) && s.isFrozen && WrongPins(events)
    ensures After(s, events) == s
    decreases |events|
  {
    if events != [] {
      assert events[0] in events && forall e <- events[1..] :: e in events;
      FrozenIgnoresPins(s, events[1..]);
    }
  }

  /** The third wrong PIN in a row freezes a card; further wrong PINs then change nothing. */
  lemma {:induction false} ThirdWrongPinFreezes(s: State, events: seq<Event>)
    requires Usable(s) && !s.isFrozen && s.pinAttempts < 3 && WrongPins(events)
    ensures var t, n := After(s, events), s.pinAttempts + |events|;
            t == s.(isFrozen := n >= 3, pinAttempts := if n >= 3 then 3 else n)
    decreases |events|
  {
    if events != [] {
      assert events[0] in events && forall e <- events[1..] :: e in events;
      var t := Next(s, events[0]);
      if t.isFrozen {
        FrozenIgnoresPins(t, events[1..]);
      } else {
        ThirdWrongPinFreezes(t, events[1..]);
      }
    }
  }
}
