/**
 The reference-counted lock per trade number: LockOrder and UnlockOrder as a
 transition system.  Every shared access is a step of its own, any number of
 threads interleave, and the lookup in UnlockOrder happens outside createLock.
 */
module OrderLock {
  import opened Common

  type TradeNo = string
  type Tid = nat
  type MutexId = nat

  /** Where a thread stands between its call of LockOrder and its return from
      UnlockOrder.  `m` is the mutex object held in the local variable `rcm`. */
  datatype Pc =
    | WantCreate                                  // createLock.Lock()
    | Lookup                                      // Load, or allocate and Store
    | Count(m: MutexId)                           // refCount++
    | LeaveCreate(m: MutexId)                     // createLock.Unlock()
    | Acquire(m: MutexId)                         // rcm.mu.Lock()
    | Critical(m: MutexId)                        // LockOrder returned, UnlockOrder not yet called
    | Release(acquired: MutexId, m: MutexId)      // UnlockOrder loaded m: m.mu.Unlock()
    | WantDrop(m: MutexId)                        // createLock.Lock()
    | Drop(m: MutexId)                            // refCount--
    | Retire(m: MutexId)                          // refCount == 0: Delete
    | LeaveDrop                                   // createLock.Unlock()
    | Skipped                                     // UnlockOrder found no entry and returned

  datatype Thread = Thread(trade: TradeNo, pc: Pc)

  /** `owner` records who locked a mutex; a Go mutex does not check it on
      Unlock, and neither does the step below.  `fatal` is Go's
      "unlock of unlocked mutex". */
  datatype State = State(
    locks: map<TradeNo, MutexId>,
    refCount: map<MutexId, int>,
    owner: map<MutexId, Option<Tid>>,
    createLock: Option<Tid>,
    threads: map<Tid, Thread>,
    fatal: bool)

  /** A scheduler decision: a new thread calls LockOrder, or a thread takes its
      next step (`addr` is the address a new mutex would get). */
  datatype Action =
    | Begin(t: Tid, trade: TradeNo)
    | Run(t: Tid, addr: MutexId)

  const INIT := State(map[], map[], map[], None, map[], false)

  predicate InCreate(pc: Pc) {
    pc.Lookup? || pc.Count? || pc.LeaveCreate? || pc.Drop? || pc.Retire? || pc.LeaveDrop?
  }

  /** Between the increment and the decrement of the reference count. */
  predicate Counted(pc: Pc) {
    pc.LeaveCreate? || pc.Acquire? || pc.Critical? || pc.Release? || pc.WantDrop? || pc.Drop?
  }

  /** Between the return of rcm.mu.Lock() and rcm.mu.Unlock(). */
  predicate Holding(pc: Pc) {
    pc.Critical? || pc.Release?
  }

  function Acquired(pc: Pc): MutexId
    requires Holding(pc)
  {
    if pc.Critical? then pc.m else pc.acquired
  }

  predicate HasMutex(pc: Pc) {
    !pc.WantCreate? && !pc.Lookup? && !pc.LeaveDrop? && !pc.Skipped?
  }

  /** Whether the action can happen: only the two mutexes block. */
  predicate Enabled(s: State, a: Action) {
    match a
    case Begin(t, _) => t !in s.threads
    case Run(t, addr) =>
      t in s.threads && !s.fatal &&
      match s.threads[t].pc
      case WantCreate => s.createLock.None?
      case Lookup => s.threads[t].trade in s.locks || addr !in s.refCount
      case Count(m) => m in s.refCount
      case Acquire(m) => m in s.owner && s.owner[m].None?
      case Release(_, m) => m in s.owner
      case WantDrop(_) => s.createLock.None?
      case Drop(m) => m in s.refCount
      case Retire(m) => m in s.refCount
      case _ => true
  }

  function At(s: State, t: Tid, pc: Pc): State
    requires t in s.threads
  {
    s.(threads := s.threads[t := s.threads[t].(pc := pc)])
  }

  function Finish(s: State, t: Tid): State {
    s.(threads := s.threads - {t})
  }

  /** The atomic actions of LockOrder and UnlockOrder. */
  function Apply(s: State, a: Action): State
    requires Enabled(s, a)
  {
    match a
    case Begin(t, k) => s.(threads := s.threads[t := Thread(k, WantCreate)])
    case Run(t, addr) =>
      var k := s.threads[t].trade;
      match s.threads[t].pc
      case WantCreate => At(s, t, Lookup).(createLock := Some(t))
      case Lookup =>
        if k in s.locks then At(s, t, Count(s.locks[k]))
        else At(s, t, Count(addr)).(locks := s.locks[k := addr],
                                     refCount := s.refCount[addr := 0],
                                     owner := s.owner[addr := None])
      case Count(m) => At(s, t, LeaveCreate(m)).(refCount := s.refCount[m := s.refCount[m] + 1])
      case LeaveCreate(m) => At(s, t, Acquire(m)).(createLock := None)
      case Acquire(m) => At(s, t, Critical(m)).(owner := s.owner[m := Some(t)])
      case Critical(m) => if k in s.locks then At(s, t, Release(m, s.locks[k])) else At(s, t, Skipped)
      case Release(_, m) =>
        if s.owner[m].None? then s.(fatal := true)
        else At(s, t, WantDrop(m)).(owner := s.owner[m := None])
      case WantDrop(m) => At(s, t, Drop(m)).(createLock := Some(t))
      case Drop(m) => At(s, t, Retire(m)).(refCount := s.refCount[m := s.refCount[m] - 1])
      case Retire(m) => At(s, t, LeaveDrop).(locks := if s.refCount[m] == 0 then s.locks - {k} else s.locks)
      case LeaveDrop => Finish(s, t).(createLock := None)
      case Skipped => Finish(s, t)
  }

  /** The state after a schedule; actions that are not enabled do not happen. */
  function Exec(s: State, schedule: seq<Action>): State
    decreases |schedule|
  {
    if schedule == [] then s
    else
      var a := schedule[|schedule| - 1];
      var r := Exec(s, schedule[..|schedule| - 1]);
      if Enabled(r, a) then Apply(r, a) else r
  }

  /** The threads that hold a reference on the entry of `k`. */
  ghost function Refs(s: State, k: TradeNo): set<Tid> {
    set t | t in s.threads && s.threads[t].trade == k && Counted(s.threads[t].pc)
  }

  // ---- the inductive invariant -------------------------------------------------

  ghost predicate CreateInv(s: State) {
    forall t :: (t in s.threads && InCreate(s.threads[t].pc)) <==> s.createLock == Some(t)
  }

  ghost predicate HeapInv(s: State) {
    && s.refCount.Keys == s.owner.Keys
    && (forall k :: k in s.locks ==> s.locks[k] in s.refCount)
    && (forall k, k' :: k in s.locks && k' in s.locks && s.locks[k] == s.locks[k'] ==> k == k')
  }

  /** A thread that has passed the lookup keeps its order's entry in the map,
      and the entry is the thread's own mutex. */
  ghost predicate EntryOf(s: State, th: Thread) {
    && (HasMutex(th.pc) ==> th.trade in s.locks && s.locks[th.trade] == th.pc.m)
    && (th.pc.Release? ==> th.pc.acquired == th.pc.m)
    && !th.pc.Skipped?
  }

  ghost predicate EntryInv(s: State) {
    forall t :: t in s.threads ==> EntryOf(s, s.threads[t])
  }

  ghost predicate OwnerInv(s: State) {
    && (forall t :: t in s.threads && Holding(s.threads[t].pc) ==>
          Acquired(s.threads[t].pc) in s.owner && s.owner[Acquired(s.threads[t].pc)] == Some(t))
    && (forall m :: m in s.owner && s.owner[m].Some? ==>
          s.owner[m].value in s.threads && Holding(s.threads[s.owner[m].value].pc)
          && Acquired(s.threads[s.owner[m].value].pc) == m)
  }

  /** The holder of createLock may have just created, or be about to delete,
      the entry of `k`. */
  ghost predicate InTransit(s: State, k: TradeNo) {
    && s.createLock.Some? && s.createLock.value in s.threads
    && s.threads[s.createLock.value].trade == k
    && (s.threads[s.createLock.value].pc.Count? || s.threads[s.createLock.value].pc.Retire?)
  }

  ghost predicate CountOf(s: State, k: TradeNo)
    requires k in s.locks
  {
    && s.locks[k] in s.refCount
    && s.refCount[s.locks[k]] == |Refs(s, k)|
    && (Refs(s, k) != {} || InTransit(s, k))
  }

  ghost predicate CountInv(s: State) {
    forall k :: k in s.locks ==> CountOf(s, k)
  }

  ghost predicate Inv(s: State) {
    !s.fatal && CreateInv(s) && HeapInv(s) && EntryInv(s) && OwnerInv(s) && CountInv(s)
  }

  // ---- preservation, one part of the invariant at a time -------------------------

  /** From s to s' only thread `t` moved, staying on its trade number. */
  ghost predicate Moved(s: State, s': State, t: Tid) {
    && t in s.threads && t in s'.threads && s'.threads == s.threads[t := s'.threads[t]]
    && s.threads[t].trade == s'.threads[t].trade
  }

  lemma CreateStays(s: State, s': State, t: Tid)
    requires CreateInv(s) && Moved(s, s', t)
    requires InCreate(s.threads[t].pc) == InCreate(s'.threads[t].pc) && s'.createLock == s.createLock
    ensures CreateInv(s')
  {
  }

  lemma CreateTaken(s: State, s': State, t: Tid)
    requires CreateInv(s) && Moved(s, s', t)
    requires s.createLock.None? && InCreate(s'.threads[t].pc) && s'.createLock == Some(t)
    ensures CreateInv(s')
  {
  }

  lemma EntryStays(s: State, s': State, t: Tid)
    requires EntryInv(s) && Moved(s, s', t)
    requires s'.locks == s.locks && EntryOf(s', s'.threads[t])
    ensures EntryInv(s')
  {
    forall t' | t' in s'.threads ensures EntryOf(s', s'.threads[t']) {
      assert EntryOf(s, s.threads[t']);
    }
  }

  lemma OwnerStays(s: State, s': State, t: Tid)
    requires OwnerInv(s) && Moved(s, s', t) && s'.owner == s.owner
    requires Holding(s.threads[t].pc) == Holding(s'.threads[t].pc)
    requires Holding(s.threads[t].pc) ==> Acquired(s.threads[t].pc) == Acquired(s'.threads[t].pc)
    ensures OwnerInv(s')
  {
  }

  lemma OwnerChanges(s: State, s': State, t: Tid, m: MutexId)
    requires OwnerInv(s) && Moved(s, s', t) && m in s.owner
    requires if Holding(s'.threads[t].pc)
             then Acquired(s'.threads[t].pc) == m && s.owner[m].None? && s'.owner == s.owner[m := Some(t)]
             else s.owner[m] == Some(t) && s'.owner == s.owner[m := None]
    requires Holding(s.threads[t].pc) != Holding(s'.threads[t].pc)
    ensures OwnerInv(s')
  {
  }

  /** Refs after one thread moves: it joins, leaves or nothing changes. */
  lemma RefsMove(s: State, s': State, t: Tid, k: TradeNo)
    requires Moved(s, s', t)
    ensures s.threads[t].trade != k || Counted(s.threads[t].pc) == Counted(s'.threads[t].pc) ==>
              Refs(s', k) == Refs(s, k)
    ensures s.threads[t].trade == k && !Counted(s.threads[t].pc) && Counted(s'.threads[t].pc) ==>
              t !in Refs(s, k) && Refs(s', k) == Refs(s, k) + {t}
    ensures s.threads[t].trade == k && Counted(s.threads[t].pc) && !Counted(s'.threads[t].pc) ==>
              t in Refs(s, k) && Refs(s', k) == Refs(s, k) - {t}
  {
  }

  lemma CountStays(s: State, s': State, t: Tid)
    requires CountInv(s) && Moved(s, s', t)
    requires s'.locks == s.locks && s'.refCount == s.refCount
    requires Counted(s.threads[t].pc) == Counted(s'.threads[t].pc)
    requires s.createLock.None? || (s.createLock == s'.createLock
             && !s.threads[t].pc.Count? && !s.threads[t].pc.Retire?)
             || (s.createLock == Some(t) && Counted(s.threads[t].pc))
    ensures CountInv(s')
  {
    forall k | k in s'.locks ensures CountOf(s', k) {
      assert CountOf(s, k);
      RefsMove(s, s', t, k);
    }
  }

  /** Incrementing or decrementing the count as the thread joins or leaves. */
  lemma CountChanges(s: State, s': State, t: Tid, m: MutexId)
    requires CountInv(s) && HeapInv(s) && Moved(s, s', t) && s'.locks == s.locks
    requires s.threads[t].trade in s.locks && s.createLock == s'.createLock == Some(t)
    requires m == s.locks[s.threads[t].trade] && m in s.refCount
    requires if Counted(s'.threads[t].pc)
             then !Counted(s.threads[t].pc) && s'.refCount == s.refCount[m := s.refCount[m] + 1]
             else Counted(s.threads[t].pc) && s'.threads[t].pc.Retire?
                  && s'.refCount == s.refCount[m := s.refCount[m] - 1]
    ensures CountInv(s')
  {
    forall k | k in s'.locks ensures CountOf(s', k) {
      assert CountOf(s, k);
      RefsMove(s, s', t, k);
      if k == s.threads[t].trade && Counted(s'.threads[t].pc) { assert t in Refs(s', k); }
    }
  }

  // ---- preservation, step by step ------------------------------------------------

  lemma BeginKeepsInv(s: State, t: Tid, k: TradeNo)
    requires Inv(s) && Enabled(s, Begin(t, k))
    ensures Inv(Apply(s, Begin(t, k)))
  {
    var s' := Apply(s, Begin(t, k));
    forall k' | k' in s'.locks ensures CountOf(s', k') {
      assert CountOf(s, k') && Refs(s', k') == Refs(s, k');
    }
    assert EntryInv(s') by {
      forall t' | t' in s'.threads ensures EntryOf(s', s'.threads[t']) {
        assert t' != t ==> EntryOf(s, s.threads[t']);
      }
    }
  }

  lemma WantKeepsInv(s: State, t: Tid, addr: MutexId)
    requires Inv(s) && Enabled(s, Run(t, addr)) && (s.threads[t].pc.WantCreate? || s.threads[t].pc.WantDrop?)
    ensures Inv(Apply(s, Run(t, addr)))
  {
    var s' := Apply(s, Run(t, addr));
    assert EntryOf(s, s.threads[t]);
    CreateTaken(s, s', t);
    EntryStays(s, s', t);
    OwnerStays(s, s', t);
    CountStays(s, s', t);
  }

  lemma LoadKeepsInv(s: State, t: Tid, addr: MutexId)
    requires Inv(s) && Enabled(s, Run(t, addr)) && s.threads[t].pc.Lookup?
    requires s.threads[t].trade in s.locks
    ensures Inv(Apply(s, Run(t, addr)))
  {
    var s' := Apply(s, Run(t, addr));
    CreateStays(s, s', t);
    EntryStays(s, s', t);
    OwnerStays(s, s', t);
    CountStays(s, s', t);
  }

  lemma NoEntryNoRefs(s: State, k: TradeNo)
    requires EntryInv(s) && k !in s.locks
    ensures Refs(s, k) == {}
    ensures forall t :: t in s.threads && s.threads[t].trade == k ==> !HasMutex(s.threads[t].pc)
  {
    forall t | t in s.threads && s.threads[t].trade == k ensures !HasMutex(s.threads[t].pc) {
      assert EntryOf(s, s.threads[t]);
    }
  }

  lemma StoreKeepsInv(s: State, t: Tid, addr: MutexId)
    requires Inv(s) && Enabled(s, Run(t, addr)) && s.threads[t].pc.Lookup?
    requires s.threads[t].trade !in s.locks
    ensures Inv(Apply(s, Run(t, addr)))
  {
    var s' := Apply(s, Run(t, addr));
    CreateStays(s, s', t);
    NoEntryNoRefs(s, s.threads[t].trade);
    StoreKeepsEntry(s, s', t, addr);
    StoreKeepsOwner(s, s', t, addr);
    StoreKeepsCount(s, s', t, addr);
  }

  lemma StoreKeepsEntry(s: State, s': State, t: Tid, addr: MutexId)
    requires EntryInv(s) && Moved(s, s', t) && s.threads[t].trade !in s.locks
    requires s'.locks == s.locks[s.threads[t].trade := addr] && s'.threads[t].pc == Count(addr)
    requires forall t :: t in s.threads && s.threads[t].trade !in s.locks ==> !HasMutex(s.threads[t].pc)
    ensures EntryInv(s')
  {
    forall t' | t' in s'.threads ensures EntryOf(s', s'.threads[t']) {
      assert EntryOf(s, s.threads[t']);
    }
  }

  lemma StoreKeepsOwner(s: State, s': State, t: Tid, addr: MutexId)
    requires OwnerInv(s) && addr !in s.owner && Moved(s, s', t)
    requires !Holding(s.threads[t].pc) && !Holding(s'.threads[t].pc)
    requires s'.owner == s.owner[addr := None]
    ensures OwnerInv(s')
  {
  }

  lemma StoreKeepsCount(s: State, s': State, t: Tid, addr: MutexId)
    requires CountInv(s) && Moved(s, s', t) && addr !in s.refCount
    requires s.threads[t].pc.Lookup? && s'.threads[t].pc == Count(addr)
    requires s'.createLock == s.createLock == Some(t)
    requires s.threads[t].trade !in s.locks && Refs(s, s.threads[t].trade) == {}
    requires s'.locks == s.locks[s.threads[t].trade := addr] && s'.refCount == s.refCount[addr := 0]
    ensures CountInv(s')
  {
    forall k | k in s'.locks ensures CountOf(s', k) {
      assert k in s.locks ==> CountOf(s, k);
      RefsMove(s, s', t, k);
    }
  }

  lemma CountKeepsInv(s: State, t: Tid, addr: MutexId)
    requires Inv(s) && Enabled(s, Run(t, addr)) && (s.threads[t].pc.Count? || s.threads[t].pc.Drop?)
    ensures Inv(Apply(s, Run(t, addr)))
  {
    var s' := Apply(s, Run(t, addr));
    assert EntryOf(s, s.threads[t]);
    CreateStays(s, s', t);
    EntryStays(s, s', t);
    OwnerStays(s, s', t);
    CountChanges(s, s', t, s.threads[t].pc.m);
  }

  lemma LeaveCreateKeepsInv(s: State, t: Tid, addr: MutexId)
    requires Inv(s) && Enabled(s, Run(t, addr)) && s.threads[t].pc.LeaveCreate?
    ensures Inv(Apply(s, Run(t, addr)))
  {
    var s' := Apply(s, Run(t, addr));
    assert EntryOf(s, s.threads[t]);
    EntryStays(s, s', t);
    OwnerStays(s, s', t);
    CountStays(s, s', t);
  }

  lemma MutexKeepsInv(s: State, t: Tid, addr: MutexId)
    requires Inv(s) && Enabled(s, Run(t, addr)) && (s.threads[t].pc.Acquire? || s.threads[t].pc.Release?)
    ensures Inv(Apply(s, Run(t, addr)))
  {
    var s' := Apply(s, Run(t, addr));
    assert EntryOf(s, s.threads[t]);
    CreateStays(s, s', t);
    EntryStays(s, s', t);
    OwnerChanges(s, s', t, s.threads[t].pc.m);
    CountStays(s, s', t);
  }

  lemma CriticalKeepsInv(s: State, t: Tid, addr: MutexId)
    requires Inv(s) && Enabled(s, Run(t, addr)) && s.threads[t].pc.Critical?
    ensures Inv(Apply(s, Run(t, addr)))
  {
    var s' := Apply(s, Run(t, addr));
    assert EntryOf(s, s.threads[t]);
    CreateStays(s, s', t);
    EntryStays(s, s', t);
    OwnerStays(s, s', t);
    CountStays(s, s', t);
  }

  /** Deleting an entry that no thread references strands nobody. */
  lemma RetireKeepsInv(s: State, t: Tid, addr: MutexId)
    requires Inv(s) && Enabled(s, Run(t, addr)) && s.threads[t].pc.Retire?
    ensures Inv(Apply(s, Run(t, addr)))
  {
    var s' := Apply(s, Run(t, addr));
    assert EntryOf(s, s.threads[t]) && CountOf(s, s.threads[t].trade);
    CreateStays(s, s', t);
    OwnerStays(s, s', t);
    RetireKeepsEntry(s, s', t);
    RetireKeepsCount(s, s', t);
  }

  lemma RetireKeepsEntry(s: State, s': State, t: Tid)
    requires EntryInv(s) && CreateInv(s) && Moved(s, s', t) && s'.threads[t].pc.LeaveDrop?
    requires s.createLock == Some(t)
    requires s'.locks == s.locks || (Refs(s, s.threads[t].trade) == {} && s'.locks == s.locks - {s.threads[t].trade})
    ensures EntryInv(s')
  {
    forall t' | t' in s'.threads ensures EntryOf(s', s'.threads[t']) {
      assert EntryOf(s, s.threads[t']);
      if t' != t && s.threads[t'].trade == s.threads[t].trade {
        assert !InCreate(s.threads[t'].pc) && (t' in Refs(s, s.threads[t].trade) <==> Counted(s.threads[t'].pc));
      }
    }
  }

  lemma RetireKeepsCount(s: State, s': State, t: Tid)
    requires CountInv(s) && Moved(s, s', t) && s.threads[t].pc.Retire? && s'.threads[t].pc.LeaveDrop?
    requires s.createLock == Some(t) && s'.refCount == s.refCount
    requires s'.locks == if Refs(s, s.threads[t].trade) == {} then s.locks - {s.threads[t].trade} else s.locks
    ensures CountInv(s')
  {
    forall k | k in s'.locks ensures CountOf(s', k) {
      assert CountOf(s, k);
      RefsMove(s, s', t, k);
    }
  }

  lemma LeaveKeepsInv(s: State, t: Tid, addr: MutexId)
    requires Inv(s) && Enabled(s, Run(t, addr)) && s.threads[t].pc.LeaveDrop?
    ensures Inv(Apply(s, Run(t, addr)))
  {
    var s' := Apply(s, Run(t, addr));
    assert InCreate(s.threads[t].pc);
    forall k | k in s'.locks ensures CountOf(s', k) {
      assert CountOf(s, k) && Refs(s', k) == Refs(s, k);
    }
    forall t' | t' in s'.threads ensures EntryOf(s', s'.threads[t']) {
      assert EntryOf(s, s.threads[t']);
    }
  }

  lemma StepKeepsInv(s: State, a: Action)
    requires Inv(s) && Enabled(s, a)
    ensures Inv(Apply(s, a))
  {
    match a
    case Begin(t, k) => BeginKeepsInv(s, t, k);
    case Run(t, addr) =>
      match s.threads[t].pc {
        case WantCreate => WantKeepsInv(s, t, addr);
        case Lookup =>
          if s.threads[t].trade in s.locks { LoadKeepsInv(s, t, addr); } else { StoreKeepsInv(s, t, addr); }
        case Count(_) => CountKeepsInv(s, t, addr);
        case LeaveCreate(_) => LeaveCreateKeepsInv(s, t, addr);
        case Acquire(_) => MutexKeepsInv(s, t, addr);
        case Critical(_) => CriticalKeepsInv(s, t, addr);
        case Release(_, _) => MutexKeepsInv(s, t, addr);
        case WantDrop(_) => WantKeepsInv(s, t, addr);
        case Drop(_) => CountKeepsInv(s, t, addr);
        case Retire(_) => RetireKeepsInv(s, t, addr);
        case LeaveDrop => LeaveKeepsInv(s, t, addr);
        case Skipped =>
      }
  }

  lemma {:induction false} ReachableInv(schedule: seq<Action>)
    ensures Inv(Exec(INIT, schedule))
    decreases |schedule|
  {
    if schedule != [] {
      var init := schedule[..|schedule| - 1];
      ReachableInv(init);
      var r := Exec(INIT, init);
      if Enabled(r, schedule[|schedule| - 1]) {
        StepKeepsInv(r, schedule[|schedule| - 1]);
      }
    }
  }

  // ---- what the lock promises --------------------------------------------------

  /** In every interleaving at most one thread is between Lock and Unlock of a
      trade number. */
  lemma MutualExclusion(schedule: seq<Action>, t: Tid, t': Tid)
    requires var s := Exec(INIT, schedule);
      && t in s.threads && t' in s.threads
      && s.threads[t].trade == s.threads[t'].trade
      && Holding(s.threads[t].pc) && Holding(s.threads[t'].pc)
    ensures t == t'
  {
    ReachableInv(schedule);
    HoldersAgree(Exec(INIT, schedule), t, t');
  }

  lemma HoldersAgree(s: State, t: Tid, t': Tid)
    requires Inv(s) && t in s.threads && t' in s.threads && s.threads[t].trade == s.threads[t'].trade
    requires Holding(s.threads[t].pc) && Holding(s.threads[t'].pc)
    ensures t == t'
  {
    assert EntryOf(s, s.threads[t]) && EntryOf(s, s.threads[t']);
  }

  /** A step of one thread leaves every other thread where it was. */
  lemma OthersStay(s: State, t: Tid, addr: MutexId)
    requires Enabled(s, Run(t, addr))
    ensures var s' := Apply(s, Run(t, addr));
      && (forall t' :: t' != t ==> (t' in s'.threads <==> t' in s.threads))
      && (forall t' :: t' != t && t' in s.threads ==> s'.threads[t'] == s.threads[t'])
      && (t in s'.threads ==> s'.threads[t].trade == s.threads[t].trade)
  {
  }

  /** The lookup in UnlockOrder, although not under createLock, always finds
      the very mutex this thread acquired; the "no entry" return is never
      taken and no unlocked mutex is ever unlocked. */
  lemma UnlockFindsOwnMutex(schedule: seq<Action>, t: Tid)
    ensures var s := Exec(INIT, schedule);
      && !s.fatal
      && (t in s.threads && s.threads[t].pc.Critical? ==>
            s.threads[t].trade in s.locks && s.locks[s.threads[t].trade] == s.threads[t].pc.m)
      && (t in s.threads && s.threads[t].pc.Release? ==>
            s.threads[t].pc.m == s.threads[t].pc.acquired && s.threads[t].pc.m in s.owner && s.owner[s.threads[t].pc.m] == Some(t))
      && (t in s.threads ==> !s.threads[t].pc.Skipped?)
  {
    ReachableInv(schedule);
    var s := Exec(INIT, schedule);
    if t in s.threads {
      assert EntryOf(s, s.threads[t]);
    }
  }

  /** The reference count of an entry is the number of threads between their
      increment and their decrement; with createLock free, an entry exists
      exactly when that number is positive. */
  lemma EntryExactlyWhenReferenced(schedule: seq<Action>, k: TradeNo)
    ensures var s := Exec(INIT, schedule);
      && (k in s.locks ==> s.locks[k] in s.refCount && s.refCount[s.locks[k]] == |Refs(s, k)|)
      && (Refs(s, k) != {} ==> k in s.locks)
      && (k in s.locks && s.createLock.None? ==> s.refCount[s.locks[k]] > 0)
  {
    ReachableInv(schedule);
    var s := Exec(INIT, schedule);
    if t :| t in Refs(s, k) {
      assert EntryOf(s, s.threads[t]);
    }
    if k in s.locks { assert CountOf(s, k); }
  }

  /** No thread waits on or holds a mutex that has left the map. */
  lemma NoOrphanMutex(schedule: seq<Action>, t: Tid)
    requires var s := Exec(INIT, schedule);
      t in s.threads && (s.threads[t].pc.Acquire? || Holding(s.threads[t].pc))
    ensures var s := Exec(INIT, schedule);
      s.threads[t].trade in s.locks && s.locks[s.threads[t].trade] == s.threads[t].pc.m
  {
    ReachableInv(schedule);
    assert EntryOf(Exec(INIT, schedule), Exec(INIT, schedule).threads[t]);
  }

  /** When every thread is done, the map has been emptied. */
  lemma QuiescentMapIsEmpty(schedule: seq<Action>)
    requires Exec(INIT, schedule).threads == map[]
    ensures Exec(INIT, schedule).locks == map[]
  {
    ReachableInv(schedule);
    var s := Exec(INIT, schedule);
    forall k ensures Refs(s, k) == {} && !InTransit(s, k) {}
  }

  /** While any thread is active, some thread can take a step. */
  lemma DeadlockFree(schedule: seq<Action>)
    requires Exec(INIT, schedule).threads != map[]
    ensures exists t, addr :: Enabled(Exec(INIT, schedule), Run(t, addr))
  {
    ReachableInv(schedule);
    var s := Exec(INIT, schedule);
    var t :| t in s.threads;
    if s.createLock.Some? {
      HolderCanRun(s, s.createLock.value);
    } else if s.threads[t].pc.Acquire? && s.owner[s.threads[t].pc.m].Some? {
      var h := s.owner[s.threads[t].pc.m].value;
      assert HasMutex(s.threads[h].pc);
      assert Enabled(s, Run(h, 0));
    } else {
      assert HasMutex(s.threads[t].pc) ==> s.threads[t].pc.m in s.owner;
      assert Enabled(s, Run(t, 0));
    }
  }

  lemma HolderCanRun(s: State, t: Tid)
    requires Inv(s) && s.createLock == Some(t)
    ensures exists addr :: Enabled(s, Run(t, addr))
  {
    assert InCreate(s.threads[t].pc);
    var addr := Unused(s.refCount.Keys);
    assert HasMutex(s.threads[t].pc) ==> s.threads[t].pc.m in s.refCount;
    assert Enabled(s, Run(t, addr));
  }

  /** A natural number outside a finite set. */
  lemma Unused(used: set<nat>) returns (n: nat)
    ensures forall x :: x in used ==> x < n
    decreases used
  {
    if used == {} {
      n := 0;
    } else {
      var x :| x in used;
      var n' := Unused(used - {x});
      n := if x < n' then n' else x + 1;
      assert forall y :: y in used ==> y == x || y in used - {x};
    }
  }

  // ---- progress: every thread is let in and gets out ------------------------------

  /** Steps the holder of createLock still takes before it gives it up. */
  function StepsInCreate(pc: Pc): nat {
    if pc.Lookup? || pc.Drop? then 3 else if pc.Count? || pc.Retire? then 2 else 1
  }

  /** Steps until createLock is free. */
  function StepsToCreate(s: State): nat {
    if s.createLock.Some? && s.createLock.value in s.threads then StepsInCreate(s.threads[s.createLock.value].pc) else 0
  }

  /** Steps until mutex `m` is free. */
  function StepsToMutex(s: State, m: MutexId): nat {
    if m !in s.owner || s.owner[m].None? then 0
    else if s.owner[m].value in s.threads && s.threads[s.owner[m].value].pc.Critical? then 2 else 1
  }

  predicate BeforeEntry(pc: Pc) {
    pc.WantCreate? || pc.Lookup? || pc.Count? || pc.LeaveCreate? || pc.Acquire?
  }

  /** Steps, of whatever thread stands in the way, until `t` is inside. */
  function StepsToEnter(s: State, t: Tid): nat
    requires t in s.threads
  {
    match s.threads[t].pc
    case WantCreate => 8 + StepsToCreate(s)
    case Lookup => 7
    case Count(_) => 6
    case LeaveCreate(_) => 5
    case Acquire(m) => 1 + StepsToMutex(s, m)
    case _ => 0
  }

  /** Steps until `t`, once inside, is gone. */
  function StepsToFinish(s: State, t: Tid): nat
    requires t in s.threads
  {
    match s.threads[t].pc
    case Critical(_) => 10
    case Release(_, _) => 9
    case WantDrop(_) => 4 + StepsToCreate(s)
    case Drop(_) => 3
    case Retire(_) => 2
    case LeaveDrop => 1
    case _ => 0
  }

  /** Whose turn it is to let `t` get on: the holder of what `t` waits for, or `t`. */
  function Turn(s: State, t: Tid): Tid
    requires t in s.threads
  {
    match s.threads[t].pc
    case WantCreate => if s.createLock.Some? then s.createLock.value else t
    case WantDrop(_) => if s.createLock.Some? then s.createLock.value else t
    case Acquire(m) => if m in s.owner && s.owner[m].Some? then s.owner[m].value else t
    case _ => t
  }

  /** That thread can take its step. */
  lemma TurnCanRun(s: State, t: Tid) returns (addr: MutexId)
    requires Inv(s) && t in s.threads
    ensures Enabled(s, Run(Turn(s, t), addr))
  {
    hide CountInv;
    assert EntryOf(s, s.threads[t]);
    addr := Unused(s.refCount.Keys);
    var u := Turn(s, t);
    assert u in s.threads && EntryOf(s, s.threads[u]);
    assert HasMutex(s.threads[u].pc) ==> s.threads[u].pc.m in s.refCount && s.threads[u].pc.m in s.owner;
  }

  /** The holder of createLock moves toward giving it up. */
  lemma HolderLeavesCreate(s: State, addr: MutexId)
    requires CreateInv(s) && s.createLock.Some? && Enabled(s, Run(s.createLock.value, addr))
    ensures StepsToCreate(Apply(s, Run(s.createLock.value, addr))) < StepsToCreate(s)
  {
    var u := s.createLock.value;
    assert u in s.threads && InCreate(s.threads[u].pc);
  }

  /** The owner of a mutex moves toward unlocking it. */
  lemma OwnerLeavesMutex(s: State, m: MutexId, addr: MutexId)
    requires EntryInv(s) && OwnerInv(s) && m in s.owner && s.owner[m].Some? && Enabled(s, Run(s.owner[m].value, addr))
    ensures StepsToMutex(Apply(s, Run(s.owner[m].value, addr)), m) < StepsToMutex(s, m)
  {
    var u := s.owner[m].value;
    assert Holding(s.threads[u].pc) && Acquired(s.threads[u].pc) == m && EntryOf(s, s.threads[u]);
  }

  /** A step of `t` itself, toward the section when it waits for nobody. */
  lemma OwnStepHelps(s: State, t: Tid, addr: MutexId)
    requires EntryInv(s) && OwnerInv(s) && t in s.threads && Turn(s, t) == t && Enabled(s, Run(t, addr))
    requires !s.threads[t].pc.Release? || s.owner[s.threads[t].pc.m].Some?
    ensures var s' := Apply(s, Run(t, addr));
      BeforeEntry(s.threads[t].pc) ==>
        && t in s'.threads && s'.threads[t].trade == s.threads[t].trade
        && (BeforeEntry(s'.threads[t].pc) || s'.threads[t].pc.Critical?)
        && StepsToEnter(s', t) < StepsToEnter(s, t)
    ensures var s' := Apply(s, Run(t, addr));
      !BeforeEntry(s.threads[t].pc) && t in s'.threads ==>
        && s'.threads[t].trade == s.threads[t].trade
        && !BeforeEntry(s'.threads[t].pc) && StepsToFinish(s', t) < StepsToFinish(s, t)
  {
    assert EntryOf(s, s.threads[t]);
  }

  /** The step brings `t` closer to the critical section. */
  lemma TurnHelpsEntry(s: State, t: Tid, addr: MutexId)
    requires Inv(s) && t in s.threads && BeforeEntry(s.threads[t].pc) && Enabled(s, Run(Turn(s, t), addr))
    ensures var s' := Apply(s, Run(Turn(s, t), addr));
      && t in s'.threads && s'.threads[t].trade == s.threads[t].trade
      && (BeforeEntry(s'.threads[t].pc) || s'.threads[t].pc.Critical?)
      && StepsToEnter(s', t) < StepsToEnter(s, t)
  {
    hide CountInv, HeapInv, OwnerInv, CreateInv, EntryInv, Apply, StepsToCreate, StepsToMutex;
    var u := Turn(s, t);
    if u == t {
      OwnStepHelps(s, t, addr);
    } else {
      OthersStay(s, u, addr);
      if s.threads[t].pc.Acquire? { OwnerLeavesMutex(s, s.threads[t].pc.m, addr); } else { HolderLeavesCreate(s, addr); }
    }
  }

  lemma TurnHelpsFinish(s: State, t: Tid, addr: MutexId)
    requires Inv(s) && t in s.threads && !BeforeEntry(s.threads[t].pc) && Enabled(s, Run(Turn(s, t), addr))
    ensures var s' := Apply(s, Run(Turn(s, t), addr));
      t in s'.threads ==>
        && s'.threads[t].trade == s.threads[t].trade
        && !BeforeEntry(s'.threads[t].pc) && StepsToFinish(s', t) < StepsToFinish(s, t)
  {
    hide CountInv, HeapInv, OwnerInv, CreateInv, EntryInv, Apply, StepsToCreate;
    var u := Turn(s, t);
    if u == t {
      if s.threads[t].pc.Release? { ReleasedIsOwned(s, t); }
      OwnStepHelps(s, t, addr);
    } else {
      OthersStay(s, u, addr);
      HolderLeavesCreate(s, addr);
    }
  }

  lemma ReleasedIsOwned(s: State, t: Tid)
    requires EntryInv(s) && OwnerInv(s) && t in s.threads && s.threads[t].pc.Release?
    ensures s.threads[t].pc.m in s.owner && s.owner[s.threads[t].pc.m] == Some(t)
  {
    assert EntryOf(s, s.threads[t]);
  }

  lemma {:induction false} ExecConcat(s: State, first: seq<Action>, second: seq<Action>)
    ensures Exec(s, first + second) == Exec(Exec(s, first), second)
    decreases |second|
  {
    hide Enabled, Apply;
    if second == [] {
      assert first + second == first;
    } else {
      var all := first + second;
      ExecConcat(s, first, second[..|second| - 1]);
      assert all[..|all| - 1] == first + second[..|second| - 1] && all[|all| - 1] == second[|second| - 1];
    }
  }

  lemma ExecOne(s: State, a: Action)
    requires Enabled(s, a)
    ensures Exec(s, [a]) == Apply(s, a)
  {
    assert [a][..0] == [];
    assert Exec(s, []) == s;
  }

  /** `t` is inside the critical section of its order and owns its mutex. */
  ghost predicate Inside(s: State, t: Tid, k: TradeNo) {
    && t in s.threads && s.threads[t].trade == k && s.threads[t].pc.Critical?
    && k in s.locks && s.locks[k] == s.threads[t].pc.m
    && s.threads[t].pc.m in s.owner && s.owner[s.threads[t].pc.m] == Some(t)
  }

  lemma {:induction false} CanEnter(s: State, t: Tid) returns (more: seq<Action>)
    requires Inv(s) && t in s.threads && (BeforeEntry(s.threads[t].pc) || s.threads[t].pc.Critical?)
    ensures Inv(Exec(s, more)) && Inside(Exec(s, more), t, s.threads[t].trade)
    decreases StepsToEnter(s, t)
  {
    if s.threads[t].pc.Critical? {
      more := [];
      assert EntryOf(s, s.threads[t]);
    } else {
      var addr := TurnCanRun(s, t);
      hide Inv, Inside, Apply, Enabled, StepsToEnter, BeforeEntry;
      var a := Run(Turn(s, t), addr);
      TurnHelpsEntry(s, t, addr);
      StepKeepsInv(s, a);
      ExecOne(s, a);
      var rest := CanEnter(Apply(s, a), t);
      more := [a] + rest;
      ExecConcat(s, [a], rest);
    }
  }

  lemma {:induction false} CanFinish(s: State, t: Tid) returns (more: seq<Action>)
    requires Inv(s) && t in s.threads && !BeforeEntry(s.threads[t].pc)
    ensures Inv(Exec(s, more)) && t !in Exec(s, more).threads
    decreases StepsToFinish(s, t)
  {
    var addr := TurnCanRun(s, t);
    hide Inv, Apply, Enabled, StepsToFinish, BeforeEntry;
    var a := Run(Turn(s, t), addr);
    TurnHelpsFinish(s, t, addr);
    StepKeepsInv(s, a);
    ExecOne(s, a);
    if t !in Apply(s, a).threads {
      more := [a];
    } else {
      var rest := CanFinish(Apply(s, a), t);
      more := [a] + rest;
      ExecConcat(s, [a], rest);
    }
  }

  /** From every reachable state, every thread that has called LockOrder and is not
      yet inside can come to hold its order's mutex, and then to return from
      UnlockOrder. */
  lemma EveryThreadIsLetIn(schedule: seq<Action>, t: Tid) returns (enter: seq<Action>, leave: seq<Action>)
    requires var s := Exec(INIT, schedule); t in s.threads && BeforeEntry(s.threads[t].pc)
    ensures Inside(Exec(INIT, schedule + enter), t, Exec(INIT, schedule).threads[t].trade)
    ensures t !in Exec(INIT, schedule + enter + leave).threads
  {
    hide Exec, Inv, BeforeEntry;
    var s := Exec(INIT, schedule);
    ReachableInv(schedule);
    enter := CanEnter(s, t);
    ExecConcat(INIT, schedule, enter);
    var inside := Exec(s, enter);
    assert !BeforeEntry(inside.threads[t].pc) by { InsideIsEntered(inside.threads[t].pc); }
    leave := CanFinish(inside, t);
    ExecConcat(INIT, schedule + enter, leave);
  }

  lemma InsideIsEntered(pc: Pc)
    ensures pc.Critical? ==> !BeforeEntry(pc)
  {
  }

  /** The one step that lets a waiting thread in: a free mutex is taken by the
      thread that locks it, and nobody else changes place. */
  lemma FreeMutexIsTaken(s: State, t: Tid, addr: MutexId)
    requires Inv(s) && t in s.threads && s.threads[t].pc.Acquire? && s.owner[s.threads[t].pc.m].None?
    ensures Enabled(s, Run(t, addr)) && Inside(Apply(s, Run(t, addr)), t, s.threads[t].trade)
  {
    assert EntryOf(s, s.threads[t]);
  }
}
