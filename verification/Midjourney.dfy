/**
 Midjourney task polling: pollers work on snapshots that may be stale, write a
 task back with a compare-and-swap on its previous status, and refund the quota
 of a task they find failed.
 */
module Midjourney {
  import opened Common

  type MjId = string
  type Pid = nat
  type UserId = nat

  const FAILURE := "FAILURE"
  const COMPLETE := "100%"
  const TIMEOUT_MS := 3600000

  datatype Task = Task(
    user: UserId, quota: int, code: int, progress: string, promptEn: string, state: string,
    submitTime: int, startTime: int, finishTime: int, imageUrl: string, status: string, failReason: string,
    videoUrl: string, videoUrls: string, properties: string, buttons: string)

  /** One upstream reply; the optional texts are the serialised JSON parts, None
      when absent (for videoUrls also when the list is empty). */
  datatype Reply = Reply(
    progress: string, promptEn: string, state: string, submitTime: int, startTime: int, finishTime: int,
    imageUrl: string, status: string, failReason: string, videoUrl: string,
    videoUrls: Option<string>, properties: Option<string>, buttons: Option<string>)

  // ---- one reply -------------------------------------------------------------------

  /** A task unfinished after an hour counts as failed. */
  function TimedOut(task: Task, reply: Reply, now: int): Reply {
    if now - task.submitTime > TIMEOUT_MS && task.progress != COMPLETE
    then reply.(failReason := "timeout", status := FAILURE) else reply
  }

  function VideoText(reply: Reply): string {
    if reply.videoUrls.Some? then reply.videoUrls.value else ""
  }

  /** checkMjTaskNeedUpdate. */
  predicate NeedsUpdate(task: Task, reply: Reply) {
    || task.code != 1
    || task.progress != reply.progress
    || task.promptEn != reply.promptEn
    || task.state != reply.state
    || task.submitTime != reply.submitTime
    || task.startTime != reply.startTime
    || task.finishTime != reply.finishTime
    || task.imageUrl != reply.imageUrl
    || task.status != reply.status
    || task.failReason != reply.failReason
    || (task.progress != COMPLETE && reply.failReason != "")
    || task.videoUrl != reply.videoUrl
    || task.videoUrls != VideoText(reply)
  }

  predicate Fails(reply: Reply) {
    (reply.progress != COMPLETE && reply.failReason != "") || (reply.progress == COMPLETE && reply.status == FAILURE)
  }

  predicate Refunds(task: Task, reply: Reply) {
    Fails(reply) && task.quota != 0
  }

  /** The poller's copy after the reply. */
  function Updated(task: Task, reply: Reply): Task {
    Task(task.user, task.quota, 1, if Fails(reply) then COMPLETE else reply.progress, reply.promptEn, reply.state,
         reply.submitTime, reply.startTime, reply.finishTime, reply.imageUrl, reply.status, reply.failReason,
         reply.videoUrl, VideoText(reply),
         if reply.properties.Some? then reply.properties.value else task.properties,
         if reply.buttons.Some? then reply.buttons.value else task.buttons)
  }

  /** Skipping a reply loses nothing: an update would only touch the serialised
      properties and buttons, and no refund is due on an unfinished task. */
  lemma SkippedReplyChangesNothing(task: Task, reply: Reply)
    requires !NeedsUpdate(task, reply) && task.progress != COMPLETE
    ensures Updated(task, reply).(properties := task.properties, buttons := task.buttons) == task
    ensures !Fails(reply)
  {
  }

  // ---- interleaved pollers -----------------------------------------------------------

  datatype Refund = Refund(id: MjId, user: UserId, quota: int)

  /** A poller's snapshot, and the refund it still has to make after a won swap. */
  datatype Poller = Poller(tasks: map<MjId, Task>, owed: Option<Refund>)

  /** A refund carried out; `paid` is whether the quota increase succeeded. */
  datatype Settlement = Settlement(refund: Refund, paid: bool)

  /** `settled` lists the refunds carried out, oldest first. */
  datatype World = World(
    rows: map<MjId, Task>, pollers: map<Pid, Poller>, balance: map<UserId, int>, settled: seq<Settlement>)

  datatype Action =
    | Submit(id: MjId, task: Task)
    | Load(p: Pid)
    | Handle(p: Pid, id: MjId, reply: Reply, now: int, dbOk: bool)
    | Pay(p: Pid, ok: bool)
    | BulkFail(ids: set<MjId>)

  const EMPTY := World(map[], map[], map[], [])

  /** UpdateWithStatus wins when the row still has the status read before. */
  predicate Wins(rows: map<MjId, Task>, id: MjId, fromStatus: string, dbOk: bool) {
    dbOk && id in rows && rows[id].status == fromStatus
  }

  /** The reply takes effect on the poller's copy of the task. */
  predicate Acts(w: World, a: Action) {
    && a.Handle? && a.p in w.pollers && w.pollers[a.p].owed.None? && a.id in w.pollers[a.p].tasks
    && NeedsUpdate(w.pollers[a.p].tasks[a.id], TimedOut(w.pollers[a.p].tasks[a.id], a.reply, a.now))
  }

  function HandleStep(w: World, a: Action): World
    requires Acts(w, a)
  {
    var poller := w.pollers[a.p];
    var task := poller.tasks[a.id];
    var reply := TimedOut(task, a.reply, a.now);
    var task' := Updated(task, reply);
    var won := Wins(w.rows, a.id, task.status, a.dbOk);
    var owed := if won && Refunds(task, reply) then Some(Refund(a.id, task.user, task.quota)) else None;
    w.(rows := if won then w.rows[a.id := task'] else w.rows,
       pollers := w.pollers[a.p := Poller(poller.tasks[a.id := task'], owed)])
  }

  function BalanceOf(balance: map<UserId, int>, u: UserId): int {
    if u in balance then balance[u] else 0
  }

  function Step(w: World, a: Action): World {
    match a
    case Submit(id, task) => if id in w.rows then w else w.(rows := w.rows[id := task])
    case Load(p) =>
      if p in w.pollers && w.pollers[p].owed.Some? then w
      else
        var open := map id | id in w.rows && w.rows[id].progress != COMPLETE :: w.rows[id];
        w.(pollers := w.pollers[p := Poller(open, None)])
    case Handle(_, _, _, _, _) => if Acts(w, a) then HandleStep(w, a) else w
    case Pay(p, ok) =>
      if p !in w.pollers || w.pollers[p].owed.None? then w
      else
        var r := w.pollers[p].owed.value;
        w.(pollers := w.pollers[p := w.pollers[p].(owed := None)],
           balance := if ok then w.balance[r.user := BalanceOf(w.balance, r.user) + r.quota] else w.balance,
           settled := w.settled + [Settlement(r, ok)])
    case BulkFail(ids) =>
      w.(rows := map id | id in w.rows ::
           if id in ids then w.rows[id].(status := FAILURE, progress := COMPLETE) else w.rows[id])
  }

  function Exec(w: World, actions: seq<Action>): World
    decreases |actions|
  {
    if actions == [] then w else Step(Exec(w, actions[..|actions| - 1]), actions[|actions| - 1])
  }

  // ---- the polling loop ------------------------------------------------------------------

  datatype Item = Item(id: MjId, reply: Reply, now: int, dbOk: bool, payOk: bool)

  /** A reply and the refund it calls for, without another poller in between. */
  function Handled(w: World, p: Pid, item: Item): World {
    Step(Step(w, Handle(p, item.id, item.reply, item.now, item.dbOk)), Pay(p, item.payOk))
  }

  /** What a lone poller's reply does to the store, field by field. */
  lemma HandledAlone(w: World, item: Item)
    requires w.pollers.Keys == {0} && w.pollers[0].owed.None?
    ensures var tasks := w.pollers[0].tasks;
      if item.id !in tasks || !NeedsUpdate(tasks[item.id], TimedOut(tasks[item.id], item.reply, item.now))
      then Handled(w, 0, item) == w
      else
        var task := tasks[item.id];
        var reply := TimedOut(task, item.reply, item.now);
        var won := Wins(w.rows, item.id, task.status, item.dbOk);
        var due := won && Refunds(task, reply);
        Handled(w, 0, item) == World(
          if won then w.rows[item.id := Updated(task, reply)] else w.rows,
          map[0 := Poller(tasks[item.id := Updated(task, reply)], None)],
          if due && item.payOk then w.balance[task.user := BalanceOf(w.balance, task.user) + task.quota]
          else w.balance,
          if due then w.settled + [Settlement(Refund(item.id, task.user, task.quota), item.payOk)] else w.settled)
  {
    hide NeedsUpdate, Updated, Refunds, TimedOut;
    var h := Step(w, Handle(0, item.id, item.reply, item.now, item.dbOk));
    assert w.pollers == map[0 := w.pollers[0]];
    if Acts(w, Handle(0, item.id, item.reply, item.now, item.dbOk)) {
      assert h.pollers == map[0 := h.pollers[0]];
    }
  }

  /** One poller working through its replies, refunding as it goes. */
  function Pass(w: World, p: Pid, items: seq<Item>): World
    decreases |items|
  {
    if items == [] then w else Handled(Pass(w, p, items[..|items| - 1]), p, items[|items| - 1])
  }

  /** The task table and the user balances. */
  class Store {
    var rows: map<MjId, Task>
    var balance: map<UserId, int>
    var settled: seq<Settlement>

    constructor (rows: map<MjId, Task>, balance: map<UserId, int>)
      ensures this.rows == rows && this.balance == balance && settled == []
    {
      this.rows, this.balance, settled := rows, balance, [];
    }

    /** The store with one poller at work on `tasks`. */
    function With(tasks: map<MjId, Task>): World
      reads this
    {
      World(rows, map[0 := Poller(tasks, None)], balance, settled)
    }

    method UpdateWithStatus(id: MjId, task: Task, fromStatus: string, dbOk: bool) returns (won: bool)
      modifies this
      ensures won == Wins(old(rows), id, fromStatus, dbOk)
      ensures rows == (if won then old(rows)[id := task] else old(rows))
      ensures balance == old(balance) && settled == old(settled)
    {
      if !dbOk { return false; }
      won := id in rows && rows[id].status == fromStatus;
      if won { rows := rows[id := task]; }
    }

    /** One reply: decide on the copy, swap the row, refund on a won failure. */
    method HandleReply(tasks: map<MjId, Task>, item: Item) returns (tasks': map<MjId, Task>)
      modifies this
      ensures With(tasks') == Handled(old(With(tasks)), 0, item)
    {
      hide NeedsUpdate, Updated, Refunds, Handled;
      HandledAlone(With(tasks), item);
      if item.id !in tasks { return tasks; }
      var task := tasks[item.id];
      var reply := item.reply;
      if item.now - task.submitTime > TIMEOUT_MS && task.progress != COMPLETE {
        reply := reply.(failReason := "timeout", status := FAILURE);
      }
      if !NeedsUpdate(task, reply) { return tasks; }
      var preStatus := task.status;
      var shouldReturnQuota;
      task, shouldReturnQuota := Absorb(task, reply);
      tasks' := tasks[item.id := task];
      var won := UpdateWithStatus(item.id, task, preStatus, item.dbOk);
      if won && shouldReturnQuota {
        if item.payOk { balance := balance[task.user := BalanceOf(balance, task.user) + task.quota]; }
        settled := settled + [Settlement(Refund(item.id, task.user, task.quota), item.payOk)];
      }
    }

    /** The loop over the replies of one upstream response. */
    method HandleReplies(tasks: map<MjId, Task>, items: seq<Item>) returns (tasks': map<MjId, Task>)
      modifies this
      ensures With(tasks') == Pass(old(With(tasks)), 0, items)
    {
      hide Step;
      tasks' := tasks;
      ghost var w := With(tasks);
      for n := 0 to |items|
        invariant With(tasks') == Pass(w, 0, items[..n])
      {
        assert items[..n + 1][..n] == items[..n];
        tasks' := HandleReply(tasks', items[n]);
      }
      assert items[..|items|] == items;
    }
  }

  /** The assignments to the task's fields, and whether its quota goes back. */
  method Absorb(before: Task, reply: Reply) returns (task: Task, shouldReturnQuota: bool)
    ensures task == Updated(before, reply) && shouldReturnQuota == Refunds(before, reply)
    ensures task.user == before.user && task.quota == before.quota
  {
    task := before.(code := 1, progress := reply.progress, promptEn := reply.promptEn, state := reply.state,
                    submitTime := reply.submitTime, startTime := reply.startTime, finishTime := reply.finishTime,
                    imageUrl := reply.imageUrl, status := reply.status, failReason := reply.failReason);
    if reply.properties.Some? { task := task.(properties := reply.properties.value); }
    if reply.buttons.Some? { task := task.(buttons := reply.buttons.value); }
    task := task.(videoUrl := reply.videoUrl,
                  videoUrls := if reply.videoUrls.Some? then reply.videoUrls.value else "");
    shouldReturnQuota := false;
    if (task.progress != COMPLETE && reply.failReason != "") || (task.progress == COMPLETE && task.status == FAILURE) {
      task := task.(progress := COMPLETE);
      if task.quota != 0 { shouldReturnQuota := true; }
    }
  }

  // ---- refunds and rows -------------------------------------------------------------------

  /** The poller's copy an action works on, and the reply as it takes effect. */
  function CopyOf(w: World, a: Action): Task
    requires Acts(w, a)
  {
    w.pollers[a.p].tasks[a.id]
  }

  function ReplyTo(w: World, a: Action): Reply
    requires Acts(w, a)
  {
    TimedOut(CopyOf(w, a), a.reply, a.now)
  }

  /** The reply wins the swap and calls for a refund. */
  predicate RefundDue(w: World, a: Action) {
    Acts(w, a) && Wins(w.rows, a.id, CopyOf(w, a).status, a.dbOk) && Refunds(CopyOf(w, a), ReplyTo(w, a))
  }

  /** The hypothesis on a reply that wins: a refunding reply says FAILURE, and a
      task once failed is not reported otherwise. */
  predicate Sticky(w: World, a: Action) {
    Acts(w, a) && Wins(w.rows, a.id, CopyOf(w, a).status, a.dbOk)
      && (Refunds(CopyOf(w, a), ReplyTo(w, a)) || CopyOf(w, a).status == FAILURE)
    ==> ReplyTo(w, a).status == FAILURE
  }

  ghost predicate AllSticky(actions: seq<Action>) {
    forall n :: 0 <= n < |actions| ==> Sticky(Exec(EMPTY, actions[..n]), actions[n])
  }

  ghost predicate Owes(w: World, p: Pid) {
    p in w.pollers && w.pollers[p].owed.Some?
  }

  /** A refund of the task has been carried out or is owed. */
  ghost predicate Granted(w: World, id: MjId) {
    || (exists i :: 0 <= i < |w.settled| && w.settled[i].refund.id == id)
    || (exists p :: Owes(w, p) && w.pollers[p].owed.value.id == id)
  }

  /** The refund is one of a failed row, for that row's user and quota. */
  ghost predicate Matches(w: World, r: Refund) {
    r.id in w.rows && w.rows[r.id].status == FAILURE && r.user == w.rows[r.id].user && r.quota == w.rows[r.id].quota
  }

  ghost predicate SnapshotInv(w: World) {
    forall p, id :: p in w.pollers && id in w.pollers[p].tasks ==>
      id in w.rows && w.pollers[p].tasks[id].user == w.rows[id].user && w.pollers[p].tasks[id].quota == w.rows[id].quota
  }

  ghost predicate RefundInv(w: World) {
    && (forall i :: 0 <= i < |w.settled| ==> Matches(w, w.settled[i].refund))
    && (forall p :: Owes(w, p) ==> Matches(w, w.pollers[p].owed.value))
  }

  /** Copies agree with rows on user and quota, and refunds are of failed rows. */
  ghost predicate Inv(w: World) {
    SnapshotInv(w) && RefundInv(w)
  }

  lemma HandleKeepsSnapshots(w: World, w': World, p: Pid, id: MjId)
    requires SnapshotInv(w) && p in w.pollers && id in w.pollers[p].tasks && p in w'.pollers && id in w.rows
    requires w'.pollers == w.pollers[p := w'.pollers[p]] && id in w'.pollers[p].tasks
    requires w'.pollers[p].tasks == w.pollers[p].tasks[id := w'.pollers[p].tasks[id]]
    requires id in w'.rows && w'.rows == w.rows[id := w'.rows[id]]
    requires w'.rows[id].user == w.rows[id].user && w'.rows[id].quota == w.rows[id].quota
    requires w'.pollers[p].tasks[id].user == w.rows[id].user && w'.pollers[p].tasks[id].quota == w.rows[id].quota
    ensures SnapshotInv(w')
  {
  }

  /** Failed rows keep user, quota and status; then refunds stay matched. */
  lemma RefundsStayMatched(w: World, w': World)
    requires RefundInv(w)
    requires forall id :: id in w.rows && w.rows[id].status == FAILURE ==>
      && id in w'.rows && w'.rows[id].status == FAILURE
      && w'.rows[id].user == w.rows[id].user && w'.rows[id].quota == w.rows[id].quota
    requires forall i :: 0 <= i < |w'.settled| ==>
      || (i < |w.settled| && w'.settled[i] == w.settled[i])
      || Matches(w, w'.settled[i].refund)
    requires forall p :: Owes(w', p) ==>
      || (Owes(w, p) && w'.pollers[p].owed == w.pollers[p].owed)
      || Matches(w', w'.pollers[p].owed.value)
    ensures RefundInv(w')
  {
    forall r | Matches(w, r) ensures Matches(w', r) {}
  }

  lemma HandleKeepsInv(w: World, a: Action)
    requires Inv(w) && Acts(w, a) && Sticky(w, a)
    ensures Inv(HandleStep(w, a))
  {
    hide NeedsUpdate, TimedOut;
    var w' := HandleStep(w, a);
    var task := CopyOf(w, a);
    assert a.id in w.rows && task.user == w.rows[a.id].user && task.quota == w.rows[a.id].quota;
    HandleKeepsSnapshots(w, w', a.p, a.id);
    RefundsStayMatched(w, w');
  }

  lemma StepKeepsInv(w: World, a: Action)
    requires Inv(w) && Sticky(w, a)
    ensures Inv(Step(w, a))
  {
    hide HandleStep, NeedsUpdate, TimedOut, Sticky, RefundInv;
    match a
    case Handle(p, id, reply, now, dbOk) => if Acts(w, a) { HandleKeepsInv(w, a); }
    case Pay(p, ok) => if Owes(w, p) { PayKeepsInv(w, p, ok); }
    case Submit(_, _) => QuietKeepsInv(w, Step(w, a));
    case Load(_) => QuietKeepsInv(w, Step(w, a));
    case BulkFail(_) => QuietKeepsInv(w, Step(w, a));
  }

  lemma PayKeepsInv(w: World, p: Pid, ok: bool)
    requires Inv(w) && Owes(w, p)
    ensures Inv(Step(w, Pay(p, ok)))
  {
    assert Matches(w, w.pollers[p].owed.value);
    RefundsStayMatched(w, Step(w, Pay(p, ok)));
  }

  /** Steps that change neither refunds nor debts: inserting, loading, bulk failing. */
  lemma QuietKeepsInv(w: World, w': World)
    requires Inv(w) && SnapshotInv(w') && w'.settled == w.settled
    requires forall id :: id in w.rows ==>
      && id in w'.rows && w'.rows[id].user == w.rows[id].user && w'.rows[id].quota == w.rows[id].quota
      && (w.rows[id].status == FAILURE ==> w'.rows[id].status == FAILURE)
    requires forall p :: Owes(w', p) ==> Owes(w, p) && w'.pollers[p].owed == w.pollers[p].owed
    ensures Inv(w')
  {
    RefundsStayMatched(w, w');
  }

  lemma {:induction false} RunKeepsInv(actions: seq<Action>)
    requires AllSticky(actions)
    ensures Inv(Exec(EMPTY, actions))
    decreases |actions|
  {
    hide Inv, Sticky, Step;
    if actions == [] {
      EmptyInv();
    } else {
      var init := actions[..|actions| - 1];
      assert forall n :: 0 <= n < |init| ==> init[..n] == actions[..n];
      RunKeepsInv(init);
      StepKeepsInv(Exec(EMPTY, init), actions[|actions| - 1]);
    }
  }

  lemma EmptyInv()
    ensures Inv(EMPTY) && Distinct(EMPTY)
  {
  }

  // ---- at most once, exactly ---------------------------------------------------------------

  /** No task has two refunds, carried out or owed. */
  ghost predicate Distinct(w: World) {
    && (forall i, j :: 0 <= i < j < |w.settled| ==> w.settled[i].refund.id != w.settled[j].refund.id)
    && (forall p, i :: Owes(w, p) && 0 <= i < |w.settled| ==> w.pollers[p].owed.value.id != w.settled[i].refund.id)
    && (forall p, q :: Owes(w, p) && Owes(w, q) && p != q ==> w.pollers[p].owed.value.id != w.pollers[q].owed.value.id)
  }

  ghost predicate SameDebts(w: World, w': World) {
    w'.settled == w.settled
    && forall p :: (Owes(w, p) <==> Owes(w', p)) && (Owes(w, p) ==> w'.pollers[p].owed == w.pollers[p].owed)
  }

  lemma SameDebtsSameRefunds(w: World, w': World)
    requires SameDebts(w, w')
    ensures Distinct(w') <==> Distinct(w)
  {
  }

  /** Carrying out an owed refund neither creates nor removes a second one. */
  lemma PayKeepsDistinct(w: World, w': World, p: Pid, ok: bool)
    requires Owes(w, p) && w'.pollers == w.pollers[p := w.pollers[p].(owed := None)]
    requires w'.settled == w.settled + [Settlement(w.pollers[p].owed.value, ok)]
    ensures Distinct(w') <==> Distinct(w)
  {
    var n := |w.settled|;
    assert w'.settled[n].refund == w.pollers[p].owed.value;
    assert forall i :: 0 <= i < n ==> w'.settled[i] == w.settled[i];
    assert forall q :: q != p ==> (Owes(w', q) <==> Owes(w, q)) && (Owes(w, q) ==> w'.pollers[q].owed == w.pollers[q].owed);
    assert !Owes(w', p);
    if Distinct(w') {
      forall q, i | Owes(w, q) && 0 <= i < n ensures w.pollers[q].owed.value.id != w.settled[i].refund.id {
        assert q == p ==> w'.settled[i].refund.id != w'.settled[n].refund.id;
        assert q != p ==> Owes(w', q);
      }
      forall q, q' | Owes(w, q) && Owes(w, q') && q != q'
        ensures w.pollers[q].owed.value.id != w.pollers[q'].owed.value.id
      {
        assert q != p ==> Owes(w', q) && w'.pollers[q].owed.value.id != w'.settled[n].refund.id;
        assert q' != p ==> Owes(w', q') && w'.pollers[q'].owed.value.id != w'.settled[n].refund.id;
      }
    }
  }

  /** A poller without a debt takes on one for task `id`. */
  lemma DebtKeepsDistinct(w: World, w': World, p: Pid, r: Refund)
    requires !Owes(w, p) && Owes(w', p) && w'.pollers[p].owed.value == r && w'.settled == w.settled
    requires forall q :: q != p ==> (Owes(w', q) <==> Owes(w, q)) && (Owes(w, q) ==> w'.pollers[q].owed == w.pollers[q].owed)
    ensures Distinct(w') <==> Distinct(w) && !Granted(w, r.id)
  {
    if Granted(w, r.id) {
      if i :| 0 <= i < |w.settled| && w.settled[i].refund.id == r.id {
        assert w'.pollers[p].owed.value.id == w'.settled[i].refund.id;
      } else {
        var q :| Owes(w, q) && w.pollers[q].owed.value.id == r.id;
        assert Owes(w', q) && q != p;
      }
    }
    if Distinct(w') {
      forall q | Owes(w, q) ensures Owes(w', q) && w'.pollers[q].owed == w.pollers[q].owed {}
    }
  }

  /** A reply wins a refund of a task that has one. */
  ghost predicate SecondWin(w: World, a: Action) {
    RefundDue(w, a) && Granted(w, a.id)
  }

  /** Any step, in any world: refunds stay distinct exactly when they were and the
      step does not win a refund of a task that has one. */
  lemma StepDistinctExactly(w: World, a: Action)
    ensures Distinct(Step(w, a)) <==> Distinct(w) && !SecondWin(w, a)
  {
    hide Distinct, Granted, NeedsUpdate, TimedOut, Refunds, Updated;
    var w' := Step(w, a);
    if RefundDue(w, a) {
      DebtKeepsDistinct(w, w', a.p, Refund(a.id, CopyOf(w, a).user, CopyOf(w, a).quota));
    } else if a.Pay? && Owes(w, a.p) {
      PayKeepsDistinct(w, w', a.p, a.ok);
    } else {
      SameDebtsSameRefunds(w, w');
    }
  }

  ghost predicate NoSecondWin(actions: seq<Action>) {
    forall n :: 0 <= n < |actions| ==> !SecondWin(Exec(EMPTY, actions[..n]), actions[n])
  }

  /** In every run, whatever the replies: each task has at most one refund exactly
      when no reply wins a refund of a task that has one. */
  lemma {:induction false} RunDistinctExactly(actions: seq<Action>)
    ensures Distinct(Exec(EMPTY, actions)) <==> NoSecondWin(actions)
    decreases |actions|
  {
    hide Distinct, SecondWin, Step;
    if actions == [] {
      EmptyInv();
    } else {
      var n := |actions| - 1;
      var init := actions[..n];
      Prefixes(actions, n);
      RunDistinctExactly(init);
      StepDistinctExactly(Exec(EMPTY, init), actions[n]);
      assert NoSecondWin(actions) <==> NoSecondWin(init) && !SecondWin(Exec(EMPTY, init), actions[n]);
    }
  }

  lemma Prefixes(actions: seq<Action>, n: nat)
    requires n <= |actions|
    ensures forall m :: 0 <= m < n ==> actions[..n][..m] == actions[..m] && actions[..n][m] == actions[m]
  {
  }

  /** A task that has its refund gets a second one exactly when the write succeeds
      and a refunding reply meets a copy that already says FAILURE. */
  lemma SecondRefundExactly(w: World, a: Action)
    requires Inv(w) && Acts(w, a) && Granted(w, a.id)
    ensures RefundDue(w, a) <==> a.dbOk && Refunds(CopyOf(w, a), ReplyTo(w, a)) && CopyOf(w, a).status == FAILURE
  {
    hide NeedsUpdate, TimedOut, Refunds;
    if i :| 0 <= i < |w.settled| && w.settled[i].refund.id == a.id {
      assert Matches(w, w.settled[i].refund);
    } else {
      var p :| Owes(w, p) && w.pollers[p].owed.value.id == a.id;
      assert Matches(w, w.pollers[p].owed.value);
    }
  }

  /** A refunding reply is applied to a failed copy of a task that has its refund. */
  ghost predicate Repeats(w: World, a: Action) {
    && Acts(w, a) && a.dbOk && Refunds(CopyOf(w, a), ReplyTo(w, a))
    && CopyOf(w, a).status == FAILURE && Granted(w, a.id)
  }

  lemma RepeatsIsSecondWin(w: World, a: Action)
    requires Inv(w)
    ensures Repeats(w, a) <==> SecondWin(w, a)
  {
    hide Inv, Granted, NeedsUpdate, TimedOut, Refunds;
    if Acts(w, a) && Granted(w, a.id) { SecondRefundExactly(w, a); }
  }

  /** Over every interleaving of pollers with stale snapshots in which refunding
      replies say FAILURE and failed tasks stay failed: each task has at most one
      refund if and only if no refunding reply is ever applied to a failed copy of
      a task that has one. */
  lemma AtMostOnceExactly(actions: seq<Action>)
    requires AllSticky(actions)
    ensures Distinct(Exec(EMPTY, actions)) <==>
      forall n :: 0 <= n < |actions| ==> !Repeats(Exec(EMPTY, actions[..n]), actions[n])
  {
    hide Distinct, SecondWin, Inv, Exec, Sticky, Repeats;
    RunDistinctExactly(actions);
    forall n | 0 <= n < |actions|
      ensures var w := Exec(EMPTY, actions[..n]); Repeats(w, actions[n]) <==> SecondWin(w, actions[n])
    {
      Prefixes(actions, n);
      RunKeepsInv(actions[..n]);
      RepeatsIsSecondWin(Exec(EMPTY, actions[..n]), actions[n]);
    }
  }

  /** A reply that wins: it refunds only by turning a task failed, and a failed
      task is not reported otherwise. */
  predicate Guarded(w: World, a: Action) {
    && Sticky(w, a)
    && (RefundDue(w, a) ==> CopyOf(w, a).status != FAILURE)
  }

  ghost predicate AllGuarded(actions: seq<Action>) {
    forall n :: 0 <= n < |actions| ==> Guarded(Exec(EMPTY, actions[..n]), actions[n])
  }

  /** Under that hypothesis each task is refunded at most once, to its user and by
      exactly its quota, and only once failed. */
  lemma RefundedAtMostOnce(actions: seq<Action>, i: nat, j: nat)
    requires AllGuarded(actions)
    requires i < |Exec(EMPTY, actions).settled| && j < |Exec(EMPTY, actions).settled|
    ensures var w := Exec(EMPTY, actions);
      var r := w.settled[i].refund;
      && (r.id == w.settled[j].refund.id ==> i == j)
      && r.id in w.rows && w.rows[r.id].status == FAILURE
      && r.user == w.rows[r.id].user && r.quota == w.rows[r.id].quota
  {
    hide Exec, Sticky;
    GuardedRunIsDistinct(actions);
    RunKeepsInv(actions);
    assert Matches(Exec(EMPTY, actions), Exec(EMPTY, actions).settled[i].refund);
  }

  lemma GuardedRunIsDistinct(actions: seq<Action>)
    requires AllGuarded(actions)
    ensures Distinct(Exec(EMPTY, actions))
  {
    hide Distinct, Inv, Exec, Sticky, Repeats, Guarded;
    forall n | 0 <= n < |actions|
      ensures var w := Exec(EMPTY, actions[..n]); Sticky(w, actions[n]) && (Inv(w) ==> !Repeats(w, actions[n]))
    {
      GuardedDoesNotRepeat(Exec(EMPTY, actions[..n]), actions[n]);
    }
    AtMostOnceExactly(actions);
    forall n | 0 <= n < |actions|
      ensures !Repeats(Exec(EMPTY, actions[..n]), actions[n])
    {
      Prefixes(actions, n);
      RunKeepsInv(actions[..n]);
    }
  }

  lemma GuardedDoesNotRepeat(w: World, a: Action)
    requires Guarded(w, a)
    ensures Sticky(w, a) && (Inv(w) ==> !Repeats(w, a))
  {
    hide Sticky, Inv, Granted, Acts, Refunds, ReplyTo;
    if Inv(w) { RepeatsIsSecondWin(w, a); }
  }

  /** What the settlements have paid to a user. */
  ghost function Paid(settled: seq<Settlement>, u: UserId): int {
    if settled == [] then 0
    else
      var last := settled[|settled| - 1];
      Paid(settled[..|settled| - 1], u) + (if last.paid && last.refund.user == u then last.refund.quota else 0)
  }

  /** In every run, guarded or not, balances are exactly the refunds paid. */
  lemma {:induction false} BalanceIsRefunds(actions: seq<Action>, u: UserId)
    ensures BalanceOf(Exec(EMPTY, actions).balance, u) == Paid(Exec(EMPTY, actions).settled, u)
    decreases |actions|
  {
    hide NeedsUpdate, TimedOut, Updated, Refunds;
    if actions != [] {
      BalanceIsRefunds(actions[..|actions| - 1], u);
      var w := Exec(EMPTY, actions[..|actions| - 1]);
      PaidAppends(w.settled, Exec(EMPTY, actions).settled, u);
    }
  }

  lemma PaidAppends(settled: seq<Settlement>, more: seq<Settlement>, u: UserId)
    ensures |more| == |settled| + 1 && settled <= more ==>
      Paid(more, u) == Paid(settled, u)
        + (if more[|settled|].paid && more[|settled|].refund.user == u then more[|settled|].refund.quota else 0)
  {
    if |more| == |settled| + 1 && settled <= more { assert more[..|more| - 1] == settled; }
  }

  // ---- how a task comes to be refunded twice ---------------------------------------------------

  /** A store and a poller that agree on an unfinished task. */
  ghost function Fresh(id: MjId, t: Task): World {
    World(map[id := t], map[0 := Poller(map[id := t], None)], map[], [])
  }

  /** One response that lists a failing task twice refunds it twice exactly when
      the reply is not complete, or a timeout rewrote its reason the first time:
      the second copy already says FAILURE, and so does the row. */
  lemma DuplicateReplyExactly(id: MjId, t: Task, reply: Reply, now: int)
    requires t.progress != COMPLETE && t.quota != 0 && reply.status == FAILURE && Fails(reply)
    ensures var item := Item(id, reply, now, true, true);
      var refund := Settlement(Refund(id, t.user, t.quota), true);
      Pass(Fresh(id, t), 0, [item, item]).settled ==
        if reply.progress != COMPLETE || TimedOut(t, reply, now).failReason != reply.failReason
        then [refund, refund] else [refund]
  {
    hide Handled;
    var item := Item(id, reply, now, true, true);
    var w := Fresh(id, t);
    PassTwo(w, item);
    HandledAlone(w, item);
    var w1 := Handled(w, 0, item);
    assert w1.settled == [Settlement(Refund(id, t.user, t.quota), true)];
    HandledAlone(w1, item);
  }

  lemma PassTwo(w: World, item: Item)
    ensures Pass(w, 0, [item, item]) == Handled(Handled(w, 0, item), 0, item)
  {
    hide Handled;
    assert [item, item][..1] == [item] && [item][..0] == [];
    assert Pass(w, 0, []) == w;
    assert Pass(w, 0, [item]) == Handled(w, 0, item);
  }

  /** Two pollers hold the same snapshot and both get a refunding reply: the task
      is refunded twice exactly when the first reply leaves the status as it was,
      so a refunding reply has to change it. */
  lemma SwapGuardsExactly(id: MjId, t: Task, first: Reply, second: Reply, now: int)
    requires t.progress != COMPLETE
    requires NeedsUpdate(t, TimedOut(t, first, now)) && Refunds(t, TimedOut(t, first, now))
    requires NeedsUpdate(t, TimedOut(t, second, now)) && Refunds(t, TimedOut(t, second, now))
    ensures var both := Fresh(id, t).(pollers := map[0 := Poller(map[id := t], None), 1 := Poller(map[id := t], None)]);
      var w1 := Step(Step(both, Handle(0, id, first, now, true)), Pay(0, true));
      var w2 := Step(Step(w1, Handle(1, id, second, now, true)), Pay(1, true));
      |w2.settled| == if TimedOut(t, first, now).status == t.status then 2 else 1
  {
    hide NeedsUpdate, Updated, Refunds, TimedOut;
    assert Updated(t, TimedOut(t, first, now)).status == TimedOut(t, first, now).status by { UpdatedStatus(t, TimedOut(t, first, now)); }
    var both := Fresh(id, t).(pollers := map[0 := Poller(map[id := t], None), 1 := Poller(map[id := t], None)]);
    assert Acts(both, Handle(0, id, first, now, true));
    var h1 := HandleStep(both, Handle(0, id, first, now, true));
    assert h1.pollers[0].owed == Some(Refund(id, t.user, t.quota));
    var w1 := Step(h1, Pay(0, true));
    assert w1.pollers[1] == Poller(map[id := t], None) && |w1.settled| == 1;
    assert w1.rows[id].status == TimedOut(t, first, now).status;
    assert Acts(w1, Handle(1, id, second, now, true));
    var h2 := HandleStep(w1, Handle(1, id, second, now, true));
    assert h2.pollers[1].owed.Some? <==> TimedOut(t, first, now).status == t.status;
  }

  lemma UpdatedStatus(t: Task, reply: Reply)
    ensures Updated(t, reply).status == reply.status
  {
  }

  /** A failed task reported as running again, and then as failed, is refunded
      again: in one response, failing, running, failing. */
  lemma RevivedTaskIsRefundedTwice(id: MjId, t: Task, reply: Reply, now: int)
    requires t.progress != COMPLETE && t.quota != 0 && t.status != FAILURE && now - t.submitTime <= TIMEOUT_MS
    requires reply.progress == COMPLETE && reply.status == FAILURE && now - reply.submitTime <= TIMEOUT_MS
    ensures var failing := Item(id, reply, now, true, true);
      var running := Item(id, reply.(status := "IN_PROGRESS", progress := "50%", failReason := ""), now, true, true);
      var refund := Settlement(Refund(id, t.user, t.quota), true);
      Handled(Handled(Handled(Fresh(id, t), 0, failing), 0, running), 0, failing).settled == [refund, refund]
  {
    hide Handled;
    var failing := Item(id, reply, now, true, true);
    var running := Item(id, reply.(status := "IN_PROGRESS", progress := "50%", failReason := ""), now, true, true);
    var w := Fresh(id, t);
    HandledAlone(w, failing);
    var w1 := Handled(w, 0, failing);
    HandledAlone(w1, running);
    var w2 := Handled(w1, 0, running);
    assert w1.settled == w2.settled == [Settlement(Refund(id, t.user, t.quota), true)];
    HandledAlone(w2, failing);
  }

  // ---- what one reply does, spelled out -----------------------------------------------------

  /** The task is unfinished an hour after its submission. */
  ghost predicate Overdue(t: Task, now: int) { now - t.submitTime > 3600000 && t.progress != "100%" }

  /** The reply reports a failure. */
  ghost predicate ReportsFailure(reply: Reply) {
    if reply.progress == "100%" then reply.status == "FAILURE" else reply.failReason != ""
  }

  /** A poller whose copy of an unfinished task is up to date refunds it exactly
      when the task cost something and is overdue or reported as failed: the refund
      is carried out for that user and quota, and the balance follows. */
  lemma RefundsExactly(w: World, p: Pid, id: MjId, reply: Reply, now: int, ok: bool)
    requires p in w.pollers && w.pollers[p].owed.None? && id in w.pollers[p].tasks && id in w.rows
    requires w.rows[id].status == w.pollers[p].tasks[id].status && w.pollers[p].tasks[id].progress != "100%"
    ensures var t := w.pollers[p].tasks[id];
      var w' := Step(Step(w, Handle(p, id, reply, now, true)), Pay(p, ok));
      if t.quota != 0 && (Overdue(t, now) || ReportsFailure(reply))
      then
        && w'.settled == w.settled + [Settlement(Refund(id, t.user, t.quota), ok)]
        && w'.balance == (if ok then w.balance[t.user := BalanceOf(w.balance, t.user) + t.quota] else w.balance)
      else w'.settled == w.settled && w'.balance == w.balance
  {
    var t := w.pollers[p].tasks[id];
    DueExactly(t, reply, now);
    hide NeedsUpdate, TimedOut, Updated, Refunds, Overdue, ReportsFailure;
    var a := Handle(p, id, reply, now, true);
    var h := Step(w, a);
    if Acts(w, a) {
      assert h.pollers[p].owed.Some? <==> Refunds(t, TimedOut(t, reply, now));
    }
  }

  lemma DueExactly(t: Task, reply: Reply, now: int)
    requires t.progress != "100%"
    ensures var r := TimedOut(t, reply, now);
      NeedsUpdate(t, r) && Refunds(t, r) <==> t.quota != 0 && (Overdue(t, now) || ReportsFailure(reply))
  {
  }

  /** What the row holds after a reply that wins: what the reply says, overdue tasks
      failed, failed tasks complete, and parts that are absent as before. */
  lemma StoredFields(t: Task, reply: Reply, now: int)
    ensures var row := Updated(t, TimedOut(t, reply, now));
      && row.user == t.user && row.quota == t.quota && row.code == 1
      && row.status == (if Overdue(t, now) then "FAILURE" else reply.status)
      && row.progress == (if Overdue(t, now) || ReportsFailure(reply) then "100%" else reply.progress)
      && row.failReason == (if Overdue(t, now) then "timeout" else reply.failReason)
      && row.promptEn == reply.promptEn && row.state == reply.state && row.imageUrl == reply.imageUrl
      && row.submitTime == reply.submitTime && row.startTime == reply.startTime && row.finishTime == reply.finishTime
      && row.videoUrl == reply.videoUrl
      && row.videoUrls == (if reply.videoUrls.Some? then reply.videoUrls.value else "")
      && row.properties == (if reply.properties.Some? then reply.properties.value else t.properties)
      && row.buttons == (if reply.buttons.Some? then reply.buttons.value else t.buttons)
  {
  }

  /** A reply that changes something is never skipped, and one just stored is. */
  lemma SkippedExactly(t: Task, reply: Reply)
    ensures !NeedsUpdate(t, reply) ==> Updated(t, reply).status == t.status && Updated(t, reply).imageUrl == t.imageUrl
    ensures !Fails(reply) ==> !NeedsUpdate(Updated(t, reply), reply)
  {
  }

  /** A poller loads exactly the unfinished tasks, as they are. */
  lemma LoadsUnfinished(w: World, p: Pid)
    requires p !in w.pollers || w.pollers[p].owed.None?
    ensures var w' := Step(w, Load(p));
      && w' == w.(pollers := w'.pollers) && p in w'.pollers && w'.pollers[p].owed.None?
      && (forall id :: id in w'.pollers[p].tasks <==> id in w.rows && w.rows[id].progress != "100%")
      && (forall id :: id in w'.pollers[p].tasks ==> w'.pollers[p].tasks[id] == w.rows[id])
  {
  }

  /** A swap that finds another status, or a failing write, stores and refunds nothing. */
  lemma LostSwapChangesNothing(w: World, p: Pid, id: MjId, reply: Reply, now: int, dbOk: bool, ok: bool)
    requires p in w.pollers && w.pollers[p].owed.None? && id in w.pollers[p].tasks && id in w.rows
    requires !dbOk || w.rows[id].status != w.pollers[p].tasks[id].status
    ensures var w' := Step(Step(w, Handle(p, id, reply, now, dbOk)), Pay(p, ok));
      w'.rows == w.rows && w'.settled == w.settled && w'.balance == w.balance
  {
    hide NeedsUpdate, TimedOut, Updated, Refunds;
  }

  /** Failing tasks in bulk fails exactly those, and refunds none. */
  lemma BulkFailExactly(w: World, ids: set<MjId>)
    ensures var w' := Step(w, BulkFail(ids));
      && w' == w.(rows := w'.rows) && w'.rows.Keys == w.rows.Keys
      && forall id :: id in w.rows ==>
           w'.rows[id] == if id in ids then w.rows[id].(status := "FAILURE", progress := "100%") else w.rows[id]
  {
  }
}
