/**
 Payment callbacks on top of the order lock: any interleaving of Epay success
 notifications, Stripe payments, expiries and async failures, and manual
 completions in one process.  The Epay and async-failure handlers read the order
 row, decide on their copy, save the whole row and then credit the user; each of
 these is a separate step and each database call may fail.  The others do all of
 it in one database transaction.
 */
module Payment {
  import opened Common
  import L = OrderLock

  type TradeNo = L.TradeNo
  type Tid = L.Tid
  type UserId = nat

  datatype Status = Pending | Success | Failed | Expired
  datatype Provider = Epay | Stripe | OtherProvider
  datatype TopUp = TopUp(user: UserId, amount: int, money: real, payMethod: string, provider: Provider, status: Status)

  /** The callback a thread is serving. */
  datatype Kind = EpayNotify(payType: string) | StripeAsyncFailed | StripePaid | StripeExpired | AdminComplete

  /** What the handler does next inside its critical section; `row` is the
      handler's own copy of the order. */
  datatype Stage = Fetch | Save(row: TopUp) | Credit(row: TopUp) | Done
  datatype Handler = Handler(kind: Kind, stage: Stage)

  /** A quota increase; `manual` marks a completion by an administrator. */
  datatype Entry = Entry(trade: TradeNo, user: UserId, quota: int, manual: bool)

  /** QuotaPerUnit, and how the database adds a fractional quota to its integer
      column (Stripe payments leave the rounding to the database). */
  datatype Pricing = Pricing(quotaPerUnit: real, column: real -> int)

  /** `ledger` lists the successful quota increases, `unpaid` the orders whose
      increase returned an error. */
  datatype State = State(
    lock: L.State,
    handlers: map<Tid, Handler>,
    rows: map<TradeNo, TopUp>,
    balance: map<UserId, int>,
    ledger: seq<Entry>,
    unpaid: set<TradeNo>,
    pricing: Pricing)

  datatype Action =
    | Insert(trade: TradeNo, row: TopUp)            // the user opens an order
    | Call(t: Tid, trade: TradeNo, kind: Kind)      // a callback arrives and calls LockOrder
    | Sched(t: Tid, addr: L.MutexId)                // a step of LockOrder or UnlockOrder
    | Work(t: Tid, ok: bool)                        // a step of the handler; ok is the database's answer

  function Init(pricing: Pricing): State {
    State(L.INIT, map[], map[], map[], [], {}, pricing)
  }

  /** Whose orders a callback may settle. */
  predicate Serves(kind: Kind, provider: Provider) {
    kind.AdminComplete? || provider == (if kind.EpayNotify? then Epay else Stripe)
  }

  /** `units` times QuotaPerUnit, without the fraction. */
  function WholeUnits(pricing: Pricing, units: real): int { Truncate(units * pricing.quotaPerUnit) }

  /** `units` times QuotaPerUnit, as the database rounds it. */
  function Rounded(pricing: Pricing, units: real): int { pricing.column(units * pricing.quotaPerUnit) }

  /** The quota bought by an order: the integer part of Amount * QuotaPerUnit, and
      for Stripe orders of Money * QuotaPerUnit, there rounded by the database
      unless an administrator completes the order. */
  function Worth(pricing: Pricing, row: TopUp, manual: bool): int {
    if !row.provider.Stripe? then WholeUnits(pricing, row.amount as real)
    else if manual then WholeUnits(pricing, row.money)
    else Rounded(pricing, row.money)
  }

  function Balance(s: State, u: UserId): int {
    if u in s.balance then s.balance[u] else 0
  }

  predicate Enabled(s: State, a: Action) {
    match a
    case Insert(k, row) => k !in s.rows && row.status.Pending?
    case Call(t, k, _) => L.Enabled(s.lock, L.Begin(t, k))
    case Sched(t, addr) =>
      // UnlockOrder is deferred: it runs once the handler is done
      && L.Enabled(s.lock, L.Run(t, addr))
      && (s.lock.threads[t].pc.Critical? ==> t in s.handlers && s.handlers[t].stage.Done?)
    case Work(t, _) =>
      && t in s.lock.threads && s.lock.threads[t].pc.Critical?
      && t in s.handlers && !s.handlers[t].stage.Done?
  }

  /** The row a handler saves for an order it found pending. */
  function Decided(kind: Kind, row: TopUp): TopUp {
    match kind
    case EpayNotify(payType) => row.(payMethod := payType, status := Success)
    case StripeAsyncFailed => row.(status := Failed)
    case StripePaid => row.(status := Success)
    case StripeExpired => row.(status := Expired)
    case AdminComplete => row.(status := Success)
  }

  /** Recharge, UpdatePendingTopUpStatus and ManualCompleteTopUp are transactions. */
  predicate Transactional(kind: Kind) { !kind.EpayNotify? && !kind.StripeAsyncFailed? }

  /** The handler finds an order it may settle; a manual completion also refuses
      orders that are worth nothing. */
  predicate Takes(s: State, k: TradeNo, kind: Kind) {
    && k in s.rows && Serves(kind, s.rows[k].provider) && s.rows[k].status.Pending?
    && (kind.AdminComplete? ==> Worth(s.pricing, s.rows[k], true) > 0)
  }

  function AtStage(s: State, t: Tid, stage: Stage): State
    requires t in s.handlers
  {
    s.(handlers := s.handlers[t := s.handlers[t].(stage := stage)])
  }

  /** The handler of `t` has the row it decided on stored; a success is still to be credited. */
  function Saved(s: State, t: Tid, k: TradeNo, row: TopUp): State
    requires t in s.handlers
  {
    AtStage(s, t, if row.status.Success? then Credit(row) else Done).(rows := s.rows[k := row])
  }

  /** The user of `row` is credited and the handler of `t` is done. */
  function Paying(s: State, t: Tid, k: TradeNo, row: TopUp): State
    requires t in s.handlers
  {
    var manual := s.handlers[t].kind.AdminComplete?;
    var quota := Worth(s.pricing, row, manual);
    AtStage(s, t, Done).(balance := s.balance[row.user := Balance(s, row.user) + quota],
                         ledger := s.ledger + [Entry(k, row.user, quota, manual)])
  }

  function WorkStep(s: State, t: Tid, ok: bool): State
    requires Enabled(s, Work(t, ok))
  {
    var h := s.handlers[t];
    var k := s.lock.threads[t].trade;
    match h.stage
    case Fetch =>
      if !ok || !Takes(s, k, h.kind) then AtStage(s, t, Done)
      else
        var row := Decided(h.kind, s.rows[k]);
        if !Transactional(h.kind) then AtStage(s, t, Save(row))
        else if row.status.Success? then Paying(Saved(s, t, k, row), t, k, row)
        else Saved(s, t, k, row)
    case Save(row) => if ok then Saved(s, t, k, row) else AtStage(s, t, Done)
    case Credit(row) => if ok then Paying(s, t, k, row) else AtStage(s, t, Done).(unpaid := s.unpaid + {k})
    case Done => s
  }

  function Apply(s: State, a: Action): State
    requires Enabled(s, a)
  {
    match a
    case Insert(k, row) => s.(rows := s.rows[k := row])
    case Call(t, k, kind) =>
      s.(lock := L.Apply(s.lock, L.Begin(t, k)), handlers := s.handlers[t := Handler(kind, Fetch)])
    case Sched(t, addr) =>
      var lock := L.Apply(s.lock, L.Run(t, addr));
      s.(lock := lock, handlers := if t in lock.threads then s.handlers else s.handlers - {t})
    case Work(t, ok) => WorkStep(s, t, ok)
  }

  function Exec(s: State, schedule: seq<Action>): State
    decreases |schedule|
  {
    if schedule == [] then s
    else
      var a := schedule[|schedule| - 1];
      var r := Exec(s, schedule[..|schedule| - 1]);
      if Enabled(r, a) then Apply(r, a) else r
  }

  // ---- invariant ---------------------------------------------------------------

  ghost predicate Credited(s: State, k: TradeNo) {
    exists i :: 0 <= i < |s.ledger| && s.ledger[i].trade == k
  }

  /** Some handler has saved success for `k` and not yet increased the quota. */
  ghost predicate Owes(s: State, t: Tid, k: TradeNo) {
    t in s.handlers && t in s.lock.threads && s.lock.threads[t].trade == k && s.handlers[t].stage.Credit?
  }

  ghost predicate HandlerInv(s: State, t: Tid)
    requires t in s.handlers && t in s.lock.threads
  {
    var h := s.handlers[t];
    var k := s.lock.threads[t].trade;
    && (h.stage.Save? || h.stage.Credit? ==> s.lock.threads[t].pc.Critical?)
    && (h.stage.Save? ==> k in s.rows && s.rows[k].status.Pending? && Serves(h.kind, s.rows[k].provider)
                          && !Transactional(h.kind) && h.stage.row == Decided(h.kind, s.rows[k]))
    && (h.stage.Credit? ==> k in s.rows && s.rows[k].status.Success? && h.stage.row == s.rows[k]
                            && !Credited(s, k) && k !in s.unpaid)
  }

  ghost predicate HandlersInv(s: State) {
    && s.handlers.Keys == s.lock.threads.Keys
    && forall t :: t in s.handlers ==> HandlerInv(s, t)
  }

  ghost predicate LedgerInv(s: State) {
    && (forall i, j :: 0 <= i < j < |s.ledger| ==> s.ledger[i].trade != s.ledger[j].trade)
    && (forall i :: 0 <= i < |s.ledger| ==> EntryInv(s, s.ledger[i]))
    && (forall k :: k in s.unpaid ==> k in s.rows && s.rows[k].status.Success? && !Credited(s, k))
    && (forall k :: k in s.rows && s.rows[k].status.Success? ==> Accounted(s, k))
  }

  ghost predicate Accounted(s: State, k: TradeNo) {
    Credited(s, k) || k in s.unpaid || exists t :: Owes(s, t, k)
  }

  ghost predicate EntryInv(s: State, e: Entry) {
    && e.trade in s.rows && s.rows[e.trade].status.Success?
    && e.user == s.rows[e.trade].user && e.quota == Worth(s.pricing, s.rows[e.trade], e.manual)
  }

  /** The quota the ledger gives to a user. */
  ghost function Paid(ledger: seq<Entry>, u: UserId): int {
    if ledger == [] then 0
    else Paid(ledger[..|ledger| - 1], u)
         + (if ledger[|ledger| - 1].user == u then ledger[|ledger| - 1].quota else 0)
  }

  ghost predicate BalanceInv(s: State) {
    forall u :: Balance(s, u) == Paid(s.ledger, u)
  }

  ghost predicate Core(s: State) {
    HandlersInv(s) && LedgerInv(s) && BalanceInv(s)
  }

  ghost predicate Inv(s: State) {
    L.Inv(s.lock) && Core(s)
  }

  /** Nobody but `t` has a live copy of `t`'s order. */
  ghost predicate Alone(s: State, t: Tid)
    requires t in s.lock.threads
  {
    forall t' :: t' in s.handlers && t' in s.lock.threads && t' != t
                 && s.lock.threads[t'].trade == s.lock.threads[t].trade ==>
      !s.handlers[t'].stage.Save? && !s.handlers[t'].stage.Credit?
  }

  // ---- preservation ------------------------------------------------------------

  lemma AloneInside(s: State, t: Tid)
    requires Inv(s) && t in s.lock.threads && s.lock.threads[t].pc.Critical?
    ensures Alone(s, t)
  {
    forall t' | t' in s.handlers && t' != t && s.lock.threads[t'].trade == s.lock.threads[t].trade
      ensures !s.handlers[t'].stage.Save? && !s.handlers[t'].stage.Credit?
    {
      assert HandlerInv(s, t');
      if s.lock.threads[t'].pc.Critical? { L.HoldersAgree(s.lock, t, t'); }
    }
  }

  /** A step that leaves the ledger, the settled rows and the owing handlers
      alone keeps the account of an order. */
  lemma StillAccounted(s: State, s': State, k: TradeNo)
    requires Accounted(s, k) && s'.ledger == s.ledger && s'.unpaid == s.unpaid
    requires forall t :: Owes(s, t, k) ==> Owes(s', t, k)
    ensures Accounted(s', k)
  {
    if t :| Owes(s, t, k) { assert Owes(s', t, k); }
  }

  lemma InsertKeepsCore(s: State, k: TradeNo, row: TopUp)
    requires Core(s) && Enabled(s, Insert(k, row))
    ensures Core(Apply(s, Insert(k, row)))
  {
    var s' := Apply(s, Insert(k, row));
    forall t | t in s'.handlers ensures HandlerInv(s', t) {
      assert HandlerInv(s, t);
    }
    forall i | 0 <= i < |s'.ledger| ensures EntryInv(s', s'.ledger[i]) {
      assert EntryInv(s, s.ledger[i]);
    }
    forall k' | k' in s'.rows && s'.rows[k'].status.Success? ensures Accounted(s', k') {
      StillAccounted(s, s', k');
    }
  }

  /** A step that only moves threads: a call arriving (`t` is new and fetches)
      or a step of LockOrder or UnlockOrder (`t` is not inside its handler). */
  lemma ThreadsMoveKeepsCore(s: State, s': State, t: Tid)
    requires Core(s) && s' == s.(lock := s'.lock, handlers := s'.handlers)
    requires s'.handlers.Keys == s'.lock.threads.Keys
    requires forall t' :: t' != t && t' in s.lock.threads ==>
               t' in s'.lock.threads && t' in s'.handlers
               && s'.lock.threads[t'] == s.lock.threads[t'] && s'.handlers[t'] == s.handlers[t']
    requires forall t' :: t' != t && t' in s'.lock.threads ==> t' in s.lock.threads
    requires t in s.handlers ==> !s.handlers[t].stage.Save? && !s.handlers[t].stage.Credit?
    requires t in s'.handlers ==> !s'.handlers[t].stage.Save? && !s'.handlers[t].stage.Credit?
    ensures Core(s')
  {
    forall t' | t' in s'.handlers ensures HandlerInv(s', t') {
      assert t' != t ==> HandlerInv(s, t');
    }
    forall i | 0 <= i < |s'.ledger| ensures EntryInv(s', s'.ledger[i]) {
      assert EntryInv(s, s.ledger[i]);
    }
    forall k | k in s'.rows && s'.rows[k].status.Success? ensures Accounted(s', k) {
      StillAccounted(s, s', k);
    }
  }

  lemma CallKeepsInv(s: State, t: Tid, k: TradeNo, kind: Kind)
    requires Inv(s) && Enabled(s, Call(t, k, kind))
    ensures Inv(Apply(s, Call(t, k, kind)))
  {
    hide L.Inv;
    L.StepKeepsInv(s.lock, L.Begin(t, k));
    ThreadsMoveKeepsCore(s, Apply(s, Call(t, k, kind)), t);
  }

  lemma SchedKeepsInv(s: State, t: Tid, addr: L.MutexId)
    requires Inv(s) && Enabled(s, Sched(t, addr))
    ensures Inv(Apply(s, Sched(t, addr)))
  {
    hide L.Inv, L.Apply;
    var s' := Apply(s, Sched(t, addr));
    assert HandlerInv(s, t);
    L.OthersStay(s.lock, t, addr);
    ThreadsMoveKeepsCore(s, s', t);
    L.StepKeepsInv(s.lock, L.Run(t, addr));
  }

  /** A handler step that changes neither rows, ledger nor unpaid orders. */
  lemma StageMovesKeepsCore(s: State, s': State, t: Tid)
    requires Core(s) && t in s.handlers && !s.handlers[t].stage.Credit?
    requires t in s'.handlers && s' == s.(handlers := s.handlers[t := s'.handlers[t]])
    requires HandlerInv(s', t)
    ensures Core(s')
  {
    forall t' | t' in s'.handlers ensures HandlerInv(s', t') {
      assert HandlerInv(s, t');
    }
    forall i | 0 <= i < |s'.ledger| ensures EntryInv(s', s'.ledger[i]) {
      assert EntryInv(s, s.ledger[i]);
    }
    forall k | k in s'.rows && s'.rows[k].status.Success? ensures Accounted(s', k) {
      StillAccounted(s, s', k);
    }
  }

  lemma FetchKeepsCore(s: State, t: Tid, ok: bool)
    requires Core(s) && Enabled(s, Work(t, ok)) && s.handlers[t].stage.Fetch? && Alone(s, t)
    ensures Core(WorkStep(s, t, ok))
  {
    hide Worth;
    assert HandlerInv(s, t);
    var k, kind := s.lock.threads[t].trade, s.handlers[t].kind;
    if ok && Takes(s, k, kind) && Transactional(kind) {
      var row := Decided(kind, s.rows[k]);
      SavedKeepsCore(s, t, row);
      if row.status.Success? { PayingKeepsCore(Saved(s, t, k, row), t); }
    } else {
      StageMovesKeepsCore(s, WorkStep(s, t, ok), t);
    }
  }

  lemma SaveKeepsCore(s: State, t: Tid, ok: bool)
    requires Core(s) && Enabled(s, Work(t, ok)) && s.handlers[t].stage.Save? && Alone(s, t)
    ensures Core(WorkStep(s, t, ok))
  {
    assert HandlerInv(s, t);
    if ok {
      SavedKeepsCore(s, t, s.handlers[t].stage.row);
    } else {
      StageMovesKeepsCore(s, WorkStep(s, t, ok), t);
    }
  }

  /** Storing a decided row over a pending one. */
  lemma SavedKeepsCore(s: State, t: Tid, row: TopUp)
    requires Core(s) && t in s.handlers && !s.handlers[t].stage.Credit? && Alone(s, t)
    requires s.lock.threads[t].pc.Critical?
    requires s.lock.threads[t].trade in s.rows && s.rows[s.lock.threads[t].trade].status.Pending?
    ensures Core(Saved(s, t, s.lock.threads[t].trade, row))
    ensures Alone(Saved(s, t, s.lock.threads[t].trade, row), t)
  {
    var k := s.lock.threads[t].trade;
    PendingIsUnsettled(s, k);
    SaveKeepsHandlers(s, Saved(s, t, k, row), t);
    SaveKeepsLedger(s, Saved(s, t, k, row), t);
  }

  lemma PendingIsUnsettled(s: State, k: TradeNo)
    requires LedgerInv(s) && k in s.rows && s.rows[k].status.Pending?
    ensures !Credited(s, k) && k !in s.unpaid
  {
    forall i | 0 <= i < |s.ledger| ensures s.ledger[i].trade != k {
      assert EntryInv(s, s.ledger[i]);
    }
  }

  lemma SaveKeepsHandlers(s: State, s': State, t: Tid)
    requires HandlersInv(s) && t in s.handlers && t in s'.handlers && Alone(s, t)
    requires s' == s.(rows := s'.rows, handlers := s.handlers[t := s'.handlers[t]])
    requires s.lock.threads[t].trade in s'.rows
    requires s'.rows == s.rows[s.lock.threads[t].trade := s'.rows[s.lock.threads[t].trade]]
    requires HandlerInv(s', t)
    ensures HandlersInv(s')
  {
    forall t' | t' in s'.handlers ensures HandlerInv(s', t') {
      assert HandlerInv(s, t');
    }
  }

  lemma SaveKeepsLedger(s: State, s': State, t: Tid)
    requires LedgerInv(s) && t in s.handlers && t in s.lock.threads && t in s'.handlers
    requires s' == s.(rows := s'.rows, handlers := s.handlers[t := s'.handlers[t]])
    requires var k := s.lock.threads[t].trade;
      && k in s'.rows && s'.rows == s.rows[k := s'.rows[k]]
      && !Credited(s, k) && k !in s.unpaid
      && (s'.rows[k].status.Success? ==> s'.handlers[t].stage.Credit?)
      && !s.handlers[t].stage.Credit?
    ensures LedgerInv(s')
  {
    var k := s.lock.threads[t].trade;
    forall i | 0 <= i < |s'.ledger| ensures EntryInv(s', s'.ledger[i]) {
      assert EntryInv(s, s.ledger[i]) && Credited(s, s.ledger[i].trade);
    }
    forall k' | k' in s'.rows && s'.rows[k'].status.Success? ensures Accounted(s', k') {
      if k' == k {
        assert Owes(s', t, k);
      } else {
        StillAccounted(s, s', k');
      }
    }
  }

  lemma CreditKeepsCore(s: State, t: Tid, ok: bool)
    requires Core(s) && Enabled(s, Work(t, ok)) && s.handlers[t].stage.Credit? && Alone(s, t)
    ensures Core(WorkStep(s, t, ok))
  {
    hide Worth;
    if ok {
      assert HandlerInv(s, t);
      PayingKeepsCore(s, t);
    } else {
      var s' := WorkStep(s, t, ok);
      var k := s.lock.threads[t].trade;
      assert HandlerInv(s, t);
      var e := Entry(k, s.rows[k].user, Worth(s.pricing, s.rows[k], false), false);
      CreditKeepsHandlers(s, s', t, false, e);
      CreditKeepsLedger(s, s', t, false, e);
    }
  }

  /** Crediting an order whose handler owes it. */
  lemma PayingKeepsCore(s: State, t: Tid)
    requires Core(s) && t in s.handlers && s.handlers[t].stage.Credit? && Alone(s, t)
    ensures Core(Paying(s, t, s.lock.threads[t].trade, s.handlers[t].stage.row))
  {
    hide Worth;
    assert HandlerInv(s, t);
    var k, row := s.lock.threads[t].trade, s.handlers[t].stage.row;
    var s' := Paying(s, t, k, row);
    var manual := s.handlers[t].kind.AdminComplete?;
    var e := Entry(k, row.user, Worth(s.pricing, row, manual), manual);
    CreditKeepsHandlers(s, s', t, true, e);
    CreditKeepsLedger(s, s', t, true, e);
    forall u ensures Balance(s', u) == Paid(s'.ledger, u) {
      assert s'.ledger[..|s'.ledger| - 1] == s.ledger;
    }
  }

  /** The quota of order `e.trade` has been increased (`ok`) or has failed to be,
      and its handler is done. */
  ghost predicate Settles(s: State, s': State, t: Tid, ok: bool, e: Entry) {
    && t in s.handlers && t in s.lock.threads && e.trade == s.lock.threads[t].trade
    && s'.lock == s.lock && s'.rows == s.rows && s'.pricing == s.pricing
    && s'.handlers == s.handlers[t := s.handlers[t].(stage := Done)]
    && s'.ledger == (if ok then s.ledger + [e] else s.ledger)
    && s'.unpaid == (if ok then s.unpaid else s.unpaid + {e.trade})
  }

  lemma CreditKeepsHandlers(s: State, s': State, t: Tid, ok: bool, e: Entry)
    requires HandlersInv(s) && Settles(s, s', t, ok, e) && Alone(s, t)
    ensures HandlersInv(s')
  {
    CreditedAfter(s, s', e.trade, ok, e);
    forall t' | t' in s'.handlers ensures HandlerInv(s', t') {
      assert HandlerInv(s, t');
    }
  }

  lemma CreditKeepsLedger(s: State, s': State, t: Tid, ok: bool, e: Entry)
    requires LedgerInv(s) && EntryInv(s, e) && Settles(s, s', t, ok, e)
    requires !Credited(s, e.trade) && e.trade !in s.unpaid
    ensures LedgerInv(s')
  {
    CreditedAfter(s, s', e.trade, ok, e);
    forall i | 0 <= i < |s'.ledger|
      ensures EntryInv(s', s'.ledger[i]) && (i < |s.ledger| ==> s'.ledger[i].trade != e.trade)
    {
      assert i < |s.ledger| ==> EntryInv(s, s.ledger[i]) && Credited(s, s.ledger[i].trade);
    }
    forall k' | k' in s'.rows && s'.rows[k'].status.Success? ensures Accounted(s', k') {
      assert Accounted(s, k');
      if k' != e.trade {
        if t' :| Owes(s, t', k') { assert Owes(s', t', k'); }
      }
    }
  }

  lemma CreditedAfter(s: State, s': State, k: TradeNo, ok: bool, e: Entry)
    requires e.trade == k && s'.ledger == if ok then s.ledger + [e] else s.ledger
    ensures forall k' :: Credited(s', k') <==> Credited(s, k') || (ok && k' == k)
  {
    forall k' ensures Credited(s', k') <==> Credited(s, k') || (ok && k' == k) {
      if Credited(s, k') {
        var i :| 0 <= i < |s.ledger| && s.ledger[i].trade == k';
        assert s'.ledger[i].trade == k';
      }
      if ok { assert s'.ledger[|s.ledger|].trade == k; }
    }
  }

  lemma StepKeepsInv(s: State, a: Action)
    requires Inv(s) && Enabled(s, a)
    ensures Inv(Apply(s, a))
  {
    hide L.Inv, Core, Worth;
    match a
    case Insert(k, row) => InsertKeepsCore(s, k, row);
    case Call(t, k, kind) => CallKeepsInv(s, t, k, kind);
    case Sched(t, addr) => SchedKeepsInv(s, t, addr);
    case Work(t, ok) =>
      AloneInside(s, t);
      match s.handlers[t].stage {
        case Fetch => FetchKeepsCore(s, t, ok);
        case Save(_) => SaveKeepsCore(s, t, ok);
        case Credit(_) => CreditKeepsCore(s, t, ok);
        case Done =>
      }
  }

  lemma {:induction false} ReachableInv(pricing: Pricing, schedule: seq<Action>)
    ensures Inv(Exec(Init(pricing), schedule))
    ensures Exec(Init(pricing), schedule).pricing == pricing
    decreases |schedule|
  {
    InitInv(pricing);
    hide Inv, Enabled, Apply, Init;
    if schedule != [] {
      var init := schedule[..|schedule| - 1];
      ReachableInv(pricing, init);
      var r := Exec(Init(pricing), init);
      if Enabled(r, schedule[|schedule| - 1]) {
        StepKeepsInv(r, schedule[|schedule| - 1]);
        StepKeepsPricing(r, schedule[|schedule| - 1]);
      }
    }
  }

  lemma InitInv(pricing: Pricing)
    ensures Inv(Init(pricing)) && Init(pricing).pricing == pricing
  {
  }

  lemma StepKeepsPricing(s: State, a: Action)
    requires Enabled(s, a)
    ensures Apply(s, a).pricing == s.pricing
  {
    hide Worth;
  }

  // ---- what the payment state machine promises -----------------------------------

  /** Over every interleaving of all five callbacks an order is credited at most
      once, only when its row says success (so never once failed or expired), to
      the order's user and by what the order is worth. */
  lemma CreditedAtMostOnce(pricing: Pricing, schedule: seq<Action>, i: nat, j: nat)
    requires i < |Exec(Init(pricing), schedule).ledger| && j < |Exec(Init(pricing), schedule).ledger|
    ensures var s := Exec(Init(pricing), schedule);
      && (s.ledger[i].trade == s.ledger[j].trade ==> i == j)
      && s.ledger[i].trade in s.rows
      && s.rows[s.ledger[i].trade].status == Success
      && s.ledger[i].user == s.rows[s.ledger[i].trade].user
      && s.ledger[i].quota == Worth(pricing, s.rows[s.ledger[i].trade], s.ledger[i].manual)
  {
    ReachableInv(pricing, schedule);
    var s := Exec(Init(pricing), schedule);
    assert s.pricing == pricing && EntryInv(s, s.ledger[i]);
  }

  /** Every credit is the integer part of Amount * QuotaPerUnit, and on a Stripe
      order of Money * QuotaPerUnit when an administrator completed it; a paid Stripe
      order gets Money * QuotaPerUnit as the database rounds it. */
  lemma CreditedAmount(pricing: Pricing, schedule: seq<Action>, i: nat)
    requires i < |Exec(Init(pricing), schedule).ledger|
    ensures var s := Exec(Init(pricing), schedule);
      var e := s.ledger[i];
      && e.trade in s.rows
      && var row := s.rows[e.trade];
      && (row.provider != Stripe ==> IsIntegerPart(e.quota, row.amount as real, pricing.quotaPerUnit))
      && (row.provider == Stripe && e.manual ==> IsIntegerPart(e.quota, row.money, pricing.quotaPerUnit))
      && (row.provider == Stripe && !e.manual ==> e.quota == Rounded(pricing, row.money))
  {
    hide Exec, IsIntegerPart, Worth;
    CreditedAtMostOnce(pricing, schedule, i, i);
    var s := Exec(Init(pricing), schedule);
    WorthIsIntegerPart(pricing, s.rows[s.ledger[i].trade], s.ledger[i].manual);
  }

  lemma WorthIsIntegerPart(pricing: Pricing, row: TopUp, manual: bool)
    ensures row.provider != Stripe ==> IsIntegerPart(Worth(pricing, row, manual), row.amount as real, pricing.quotaPerUnit)
    ensures row.provider == Stripe && manual ==> IsIntegerPart(Worth(pricing, row, manual), row.money, pricing.quotaPerUnit)
    ensures row.provider == Stripe && !manual ==> Worth(pricing, row, manual) == Rounded(pricing, row.money)
  {
  }

  /** `n` is units * quotaPerUnit without its fraction. */
  ghost predicate IsIntegerPart(n: int, units: real, quotaPerUnit: real) {
    var x := units * quotaPerUnit;
    && (x >= 0.0 ==> n as real <= x < (n + 1) as real)
    && (x <= 0.0 ==> (n - 1) as real < x <= n as real)
  }

  /** Every successful order is accounted for in exactly one way: credited,
      reported as unpaid, or owed by the one handler that holds its lock. */
  lemma SuccessIsAccountedFor(pricing: Pricing, schedule: seq<Action>, k: TradeNo)
    ensures var s := Exec(Init(pricing), schedule);
      && (k in s.rows && s.rows[k].status.Success? ==> Accounted(s, k))
      && !(Credited(s, k) && k in s.unpaid)
      && (forall t :: Owes(s, t, k) ==>
            !Credited(s, k) && k !in s.unpaid && s.lock.threads[t].pc.Critical?)
      && (forall t, t' :: Owes(s, t, k) && Owes(s, t', k) ==> t == t')
  {
    ReachableInv(pricing, schedule);
    var s := Exec(Init(pricing), schedule);
    forall t | Owes(s, t, k) ensures HandlerInv(s, t) {}
    forall t, t' | Owes(s, t, k) && Owes(s, t', k) ensures t == t' {
      AloneInside(s, t);
    }
  }

  /** A user's balance is the sum of the ledger entries made for that user. */
  lemma BalanceIsPaid(pricing: Pricing, schedule: seq<Action>, u: UserId)
    ensures var s := Exec(Init(pricing), schedule); Balance(s, u) == Paid(s.ledger, u)
  {
    ReachableInv(pricing, schedule);
  }

  /** What a callback may do to a pending order: each serves its own provider's
      orders and gives them its own outcome; Epay also records how was paid. */
  ghost predicate SettledBy(kind: Kind, before: TopUp, after: TopUp) {
    && before.status == Pending
    && match kind
       case EpayNotify(payType) => before.provider == Epay && after == before.(status := Success, payMethod := payType)
       case StripeAsyncFailed => before.provider == Stripe && after == before.(status := Failed)
       case StripePaid => before.provider == Stripe && after == before.(status := Success)
       case StripeExpired => before.provider == Stripe && after == before.(status := Expired)
       case AdminComplete => after == before.(status := Success)
  }

  /** A step leaves a row alone or settles it, by the handler that holds the
      order's lock; so a row that has left pending never changes. */
  lemma StepKeepsSettledRows(s: State, a: Action, k: TradeNo)
    requires Inv(s) && Enabled(s, a) && k in s.rows
    ensures k in Apply(s, a).rows
    ensures Apply(s, a).rows[k] != s.rows[k] ==>
      && a.Work? && s.lock.threads[a.t].trade == k && s.lock.threads[a.t].pc.Critical?
      && SettledBy(s.handlers[a.t].kind, s.rows[k], Apply(s, a).rows[k])
  {
    hide L.Inv, L.Apply, LedgerInv, BalanceInv, Worth, L.Enabled;
    if a.Work? {
      assert HandlerInv(s, a.t);
    }
  }

  /** Success, failed and expired are absorbing over every continuation of every run. */
  lemma {:induction false} SettledForever(pricing: Pricing, schedule: seq<Action>, more: seq<Action>, k: TradeNo)
    requires var s := Exec(Init(pricing), schedule); k in s.rows && !s.rows[k].status.Pending?
    ensures var s := Exec(Init(pricing), schedule);
      var s' := Exec(s, more); k in s'.rows && s'.rows[k] == s.rows[k] && Inv(s')
    decreases |more|
  {
    ReachableInv(pricing, schedule);
    if more != [] {
      var init := more[..|more| - 1];
      SettledForever(pricing, schedule, init, k);
      var r := Exec(Exec(Init(pricing), schedule), init);
      if Enabled(r, more[|more| - 1]) {
        StepKeepsInv(r, more[|more| - 1]);
        StepKeepsSettledRows(r, more[|more| - 1], k);
      }
    }
  }

  // ---- transactions leave nothing unpaid ----------------------------------------

  /** Only Epay callbacks credit in a step of their own. */
  ghost predicate EpayInv(s: State) {
    && (forall k :: k in s.unpaid ==> k in s.rows && s.rows[k].provider == Epay)
    && (forall t :: t in s.handlers && t in s.lock.threads && s.handlers[t].stage.Credit? ==>
          s.lock.threads[t].trade in s.rows && s.rows[s.lock.threads[t].trade].provider == Epay)
  }

  lemma StepKeepsEpayInv(s: State, a: Action)
    requires Inv(s) && Enabled(s, a) && EpayInv(s)
    ensures EpayInv(Apply(s, a))
  {
    hide L.Inv, Core, Worth, L.Apply, L.Enabled, WorkStep;
    match a
    case Insert(_, _) =>
    case Work(t, ok) => WorkKeepsEpayInv(s, t, ok);
    case Sched(t, addr) => L.OthersStay(s.lock, t, addr); SchedOutsideHandler(s, t, addr);
    case Call(t, k, _) => BeginAddsThread(s.lock, t, k);
  }

  /** A handler between its save and its credit runs no lock step. */
  lemma SchedOutsideHandler(s: State, t: Tid, addr: L.MutexId)
    requires Core(s) && Enabled(s, Sched(t, addr))
    ensures t in s.handlers && !s.handlers[t].stage.Credit?
  {
    hide LedgerInv, BalanceInv, L.Apply;
    assert HandlerInv(s, t);
  }

  lemma WorkKeepsEpayInv(s: State, t: Tid, ok: bool)
    requires Inv(s) && Enabled(s, Work(t, ok)) && EpayInv(s)
    ensures EpayInv(WorkStep(s, t, ok))
  {
    hide L.Inv, LedgerInv, BalanceInv, Worth, L.Apply, L.Enabled;
    assert HandlerInv(s, t);
    forall k | k in s.rows ensures k in WorkStep(s, t, ok).rows && WorkStep(s, t, ok).rows[k].provider == s.rows[k].provider {
      StepKeepsSettledRows(s, Work(t, ok), k);
    }
  }

  lemma BeginAddsThread(lock: L.State, t: Tid, k: TradeNo)
    requires L.Enabled(lock, L.Begin(t, k))
    ensures forall t' :: t' != t && t' in L.Apply(lock, L.Begin(t, k)).threads ==>
      t' in lock.threads && L.Apply(lock, L.Begin(t, k)).threads[t'] == lock.threads[t']
  {
  }

  lemma {:induction false} ReachableEpayInv(pricing: Pricing, schedule: seq<Action>)
    ensures EpayInv(Exec(Init(pricing), schedule))
    decreases |schedule|
  {
    hide Inv, Enabled, Apply;
    if schedule != [] {
      var init := schedule[..|schedule| - 1];
      ReachableEpayInv(pricing, init);
      ReachableInv(pricing, init);
      var r := Exec(Init(pricing), init);
      if Enabled(r, schedule[|schedule| - 1]) {
        StepKeepsEpayInv(r, schedule[|schedule| - 1]);
      }
    }
  }

  /** However payment, expiry, async failure and manual completion race on an order
      of another provider than Epay, it is successful exactly when it has been credited. */
  lemma PaidExactlyWhenSuccessful(pricing: Pricing, schedule: seq<Action>, k: TradeNo)
    requires var s := Exec(Init(pricing), schedule); k in s.rows && s.rows[k].provider != Epay
    ensures var s := Exec(Init(pricing), schedule); s.rows[k].status.Success? <==> Credited(s, k)
  {
    hide L.Inv, HandlersInv, BalanceInv, Worth, Exec;
    ReachableInv(pricing, schedule);
    ReachableEpayInv(pricing, schedule);
    var s := Exec(Init(pricing), schedule);
    if s.rows[k].status.Success? { assert Accounted(s, k); }
    if Credited(s, k) {
      var i :| 0 <= i < |s.ledger| && s.ledger[i].trade == k;
      assert EntryInv(s, s.ledger[i]);
    }
  }

  // ---- callbacks settle orders -----------------------------------------------------

  lemma {:induction false} ExecConcat(s: State, first: seq<Action>, second: seq<Action>)
    ensures Exec(s, first + second) == Exec(Exec(s, first), second)
    decreases |second|
  {
    hide Enabled, Apply;
    if second == [] {
      assert first + second == first;
    } else {
      var all := first + second;
      ExecConcat(s, first, second[..|second| - 1]);
      assert all[..|all| - 1] == first + second[..|second| - 1] && all[|all| - 1] == second[|second| - 1];
    }
  }

  lemma ExecOne(s: State, a: Action)
    requires Enabled(s, a)
    ensures Exec(s, [a]) == Apply(s, a)
  {
    hide Enabled, Apply;
    assert [a][..0] == [];
    assert Exec(s, []) == s;
  }

  /** Orders, credits and balances are the same. */
  ghost predicate SameBooks(s: State, s': State) {
    s'.rows == s.rows && s'.ledger == s.ledger && s'.balance == s.balance && s'.unpaid == s.unpaid
    && s'.pricing == s.pricing
  }

  /** The handler of `t` has not looked at its order, `k`, which is pending. */
  ghost predicate Waiting(s: State, t: Tid, k: TradeNo) {
    && t in s.lock.threads && s.lock.threads[t].trade == k && t in s.handlers && s.handlers[t].stage == Fetch
    && (L.BeforeEntry(s.lock.threads[t].pc) || s.lock.threads[t].pc.Critical?)
    && k in s.rows && s.rows[k].status == Pending
  }

  /** Whoever is in the way is inside its own handler. */
  predicate Busy(s: State, u: Tid) {
    u in s.lock.threads && s.lock.threads[u].pc.Critical? && u in s.handlers && !s.handlers[u].stage.Done?
  }

  /** Its database call may fail, and then it gives up without touching the books. */
  lemma BusyGivesUp(s: State, t: Tid, k: TradeNo)
    requires Inv(s) && Waiting(s, t, k) && L.BeforeEntry(s.lock.threads[t].pc) && Busy(s, L.Turn(s.lock, t))
    ensures var u := L.Turn(s.lock, t);
      && Enabled(s, Work(u, false)) && SameBooks(s, Apply(s, Work(u, false)))
      && Apply(s, Work(u, false)).lock == s.lock && Waiting(Apply(s, Work(u, false)), t, k)
      && Apply(s, Work(u, false)).handlers[t] == s.handlers[t]
      && !Busy(Apply(s, Work(u, false)), u)
  {
    hide LedgerInv, BalanceInv, L.CountInv, L.CreateInv, Worth, L.Apply;
    var u := L.Turn(s.lock, t);
    assert L.EntryOf(s.lock, s.lock.threads[t]) && L.EntryOf(s.lock, s.lock.threads[u]);
    assert s.lock.threads[t].pc.Acquire? by { InCreateIsNotCritical(s.lock, t); }
    assert s.lock.threads[u].trade == k;
    assert HandlerInv(s, u);
  }

  lemma InCreateIsNotCritical(lock: L.State, t: Tid)
    requires L.CreateInv(lock) && t in lock.threads && L.BeforeEntry(lock.threads[t].pc)
    ensures var u := L.Turn(lock, t);
      u in lock.threads && lock.threads[u].pc.Critical? ==> lock.threads[t].pc.Acquire?
  {
    assert lock.createLock.Some? ==> lock.createLock.value in lock.threads && L.InCreate(lock.threads[lock.createLock.value].pc);
  }

  /** A lock step of whoever is in the way, toward letting `t` in. */
  lemma TurnHelps(s: State, t: Tid, k: TradeNo, addr: L.MutexId)
    requires Inv(s) && Waiting(s, t, k) && L.BeforeEntry(s.lock.threads[t].pc)
    requires L.Enabled(s.lock, L.Run(L.Turn(s.lock, t), addr)) && !Busy(s, L.Turn(s.lock, t))
    ensures var a := Sched(L.Turn(s.lock, t), addr);
      && Enabled(s, a) && SameBooks(s, Apply(s, a)) && Waiting(Apply(s, a), t, k)
      && Apply(s, a).handlers[t] == s.handlers[t]
      && L.StepsToEnter(Apply(s, a).lock, t) < L.StepsToEnter(s.lock, t)
  {
    hide LedgerInv, BalanceInv, L.Inv, L.Apply, L.StepsToEnter, L.BeforeEntry, HandlerInv;
    L.TurnHelpsEntry(s.lock, t, addr);
  }

  /** A waiting handler can come to run, with nothing settled in the meantime. */
  lemma {:induction false} CanStart(s: State, t: Tid, k: TradeNo) returns (more: seq<Action>)
    requires Inv(s) && Waiting(s, t, k)
    ensures var s' := Exec(s, more);
      && Inv(s') && Waiting(s', t, k) && s'.lock.threads[t].pc.Critical?
      && s'.handlers[t] == s.handlers[t] && SameBooks(s, s')
    decreases L.StepsToEnter(s.lock, t), if Busy(s, L.Turn(s.lock, t)) then 1 else 0
  {
    hide Inv, Apply, Enabled, L.StepsToEnter, Busy, L.Turn;
    if s.lock.threads[t].pc.Critical? {
      more := [];
      assert Exec(s, []) == s;
    } else {
      var a;
      if Busy(s, L.Turn(s.lock, t)) {
        a := Work(L.Turn(s.lock, t), false);
        BusyGivesUp(s, t, k);
      } else {
        LockInv(s);
        var addr := L.TurnCanRun(s.lock, t);
        a := Sched(L.Turn(s.lock, t), addr);
        TurnHelps(s, t, k, addr);
      }
      StepKeepsInv(s, a);
      ExecOne(s, a);
      var rest := CanStart(Apply(s, a), t, k);
      more := [a] + rest;
      ExecConcat(s, [a], rest);
    }
  }

  lemma LockInv(s: State)
    requires Inv(s)
    ensures L.Inv(s.lock)
  {
  }

  /** The credit a completed order gets. */
  function CreditOf(s: State, k: TradeNo, kind: Kind): Entry
    requires k in s.rows
  {
    Entry(k, s.rows[k].user, Worth(s.pricing, s.rows[k], kind.AdminComplete?), kind.AdminComplete?)
  }

  /** The order is the callback's to settle: pending, of its provider, and worth at
      least one unit where an administrator completes it. */
  ghost predicate Eligible(s: State, k: TradeNo, kind: Kind) {
    && k in s.rows && s.rows[k].status == Pending
    && (kind.EpayNotify? ==> s.rows[k].provider == Epay)
    && (kind.StripePaid? || kind.StripeExpired? || kind.StripeAsyncFailed? ==> s.rows[k].provider == Stripe)
    && (kind.AdminComplete? ==>
          (if s.rows[k].provider == Stripe then s.rows[k].money else s.rows[k].amount as real) * s.pricing.quotaPerUnit >= 1.0)
  }

  lemma EligibleIsTaken(s: State, k: TradeNo, kind: Kind)
    requires Eligible(s, k, kind)
    ensures Takes(s, k, kind)
  {
  }

  /** The books after `kind` has settled order `k`: that row alone changes, and a
      success is credited once, at the end of the ledger and on the user's balance. */
  ghost predicate Books(s: State, s': State, k: TradeNo, kind: Kind) {
    && k in s.rows && k in s'.rows && s'.rows == s.rows[k := s'.rows[k]]
    && SettledBy(kind, s.rows[k], s'.rows[k]) && s'.unpaid == s.unpaid && s'.pricing == s.pricing
    && if s'.rows[k].status == Success
       then s'.ledger == s.ledger + [CreditOf(s, k, kind)]
            && s'.balance == s.balance[s.rows[k].user := Balance(s, s.rows[k].user) + CreditOf(s, k, kind).quota]
       else s'.ledger == s.ledger && s'.balance == s.balance
  }

  lemma SettlingKeepsWorth(pricing: Pricing, row: TopUp, kind: Kind)
    ensures forall manual :: Worth(pricing, Decided(kind, row), manual) == Worth(pricing, row, manual)
  {
    hide WholeUnits, Rounded;
  }

  /** Inside the lock, with every database call succeeding. */
  lemma HandlerSettles(s: State, t: Tid, k: TradeNo) returns (more: seq<Action>)
    requires Inv(s) && Waiting(s, t, k) && s.lock.threads[t].pc.Critical? && Eligible(s, k, s.handlers[t].kind)
    ensures Inv(Exec(s, more)) && Books(s, Exec(s, more), k, s.handlers[t].kind)
    ensures t in Exec(s, more).handlers && Exec(s, more).handlers[t].stage == Done
  {
    hide Inv, Worth, L.Apply, L.Enabled;
    var kind := s.handlers[t].kind;
    EligibleIsTaken(s, k, kind);
    SettlingKeepsWorth(s.pricing, s.rows[k], kind);
    hide Eligible, Takes;
    var a := Work(t, true);
    var s1 := Apply(s, a);
    StepKeepsInv(s, a);
    ExecOne(s, a);
    if Transactional(kind) {
      more := [a];
    } else {
      assert s1 == AtStage(s, t, Save(Decided(kind, s.rows[k])));
      StepKeepsInv(s1, a);
      var s2 := Apply(s1, a);
      ExecOne(s1, a);
      ExecConcat(s, [a], [a]);
      if kind.StripeAsyncFailed? {
        more := [a] + [a];
      } else {
        StepKeepsInv(s2, a);
        ExecOne(s2, a);
        ExecConcat(s, [a] + [a], [a]);
        more := [a] + [a] + [a];
      }
    }
  }

  /** From every reachable state, whatever other handlers are doing, a callback for
      an order that is its to settle can arrive, get the lock and settle the order:
      exactly that row changes, and a success is credited exactly once. */
  lemma CallbackSettles(pricing: Pricing, schedule: seq<Action>, t: Tid, k: TradeNo, kind: Kind)
      returns (more: seq<Action>)
    requires var s := Exec(Init(pricing), schedule); t !in s.lock.threads && Eligible(s, k, kind)
    ensures Books(Exec(Init(pricing), schedule), Exec(Init(pricing), schedule + more), k, kind)
  {
    hide Exec, Inv, Eligible, Worth, Books;
    var s := Exec(Init(pricing), schedule);
    ReachableInv(pricing, schedule);
    assert Eligible(s, k, kind);
    var call := Call(t, k, kind);
    var s1 := Arrives(s, t, k, kind);
    var start := CanStart(s1, t, k);
    var s2 := Exec(s1, start);
    SameBooksSameOrder(s, s2, k, kind);
    var finish := HandlerSettles(s2, t, k);
    more := [call] + start + finish;
    BooksFrom(s, s2, Exec(s2, finish), k, kind);
    ExecConcat(s, [call], start);
    ExecConcat(s, [call] + start, finish);
    ExecConcat(Init(pricing), schedule, more);
  }

  lemma Arrives(s: State, t: Tid, k: TradeNo, kind: Kind) returns (s1: State)
    requires Inv(s) && t !in s.lock.threads && Eligible(s, k, kind)
    ensures s1 == Exec(s, [Call(t, k, kind)]) && Inv(s1) && SameBooks(s, s1)
    ensures Waiting(s1, t, k) && s1.handlers[t].kind == kind
  {
    hide Inv, Exec;
    var a := Call(t, k, kind);
    s1 := Apply(s, a);
    StepKeepsInv(s, a);
    ExecOne(s, a);
  }

  lemma SameBooksSameOrder(s: State, s': State, k: TradeNo, kind: Kind)
    requires SameBooks(s, s') && Eligible(s, k, kind)
    ensures Eligible(s', k, kind)
  {
  }

  lemma BooksFrom(s: State, mid: State, s': State, k: TradeNo, kind: Kind)
    requires SameBooks(s, mid) && Books(mid, s', k, kind)
    ensures Books(s, s', k, kind)
  {
    hide Worth;
  }

  /** A database call that fails changes no order, credit or balance; a failed credit
      is put on record as unpaid. */
  lemma FailedCallChangesNothing(s: State, t: Tid)
    requires Enabled(s, Work(t, false))
    ensures var s' := Apply(s, Work(t, false));
      && s'.rows == s.rows && s'.ledger == s.ledger && s'.balance == s.balance
      && s'.unpaid == (if s.handlers[t].stage.Credit? then s.unpaid + {s.lock.threads[t].trade} else s.unpaid)
      && t in s'.handlers && s'.handlers[t].stage == Done
  {
    hide Worth, L.Apply, L.Enabled;
  }

  /** A new order can be opened under any unused trade number. */
  lemma OrderCanBeOpened(s: State, k: TradeNo, row: TopUp)
    requires k !in s.rows && row.status == Pending
    ensures Enabled(s, Insert(k, row)) && Apply(s, Insert(k, row)) == s.(rows := s.rows[k := row])
  {
  }
}
