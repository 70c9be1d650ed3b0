/**
 Billing of asynchronous video tasks: the quota charged in advance is adjusted
 when the upstream reports token usage and returned when the task fails.
 */
module VideoTask {
  import opened Common

  const SUBMITTED := "SUBMITTED"
  const QUEUED := "QUEUED"
  const IN_PROGRESS := "IN_PROGRESS"
  const SUCCESS := "SUCCESS"
  const FAILURE := "FAILURE"

  datatype Task = Task(status: string, progress: string, startTime: int, finishTime: int, failReason: string, quota: int)

  /** What a poll of the upstream returns. */
  datatype Info = Info(status: string, url: string, progress: string, reason: string, totalTokens: int)

  /** The ratios that apply, when the model has one configured and a group is known. */
  datatype Rate = Rate(modelRatio: real, groupRatio: real)

  /** Which database calls succeed: the extra charge, the partial refund, saving
      the task, and the refund of a failed task. */
  datatype Writes = Writes(charge: bool, partialRefund: bool, save: bool, failureRefund: bool)

  const ALL_OK := Writes(true, true, true, true)

  /** A task row and the balance of its user. */
  datatype Account = Account(task: Task, balance: int)

  /** An empty status is a failure. */
  function Effective(info: Info): Info {
    if info.status == "" then Info(FAILURE, "", "", "upstream returned empty status", 0) else info
  }

  /** The token-based price. */
  function Price(tokens: int, rate: Rate): int {
    Truncate(tokens as real * rate.modelRatio * rate.groupRatio)
  }

  /** The change of the charge on success: applied only when its write succeeds. */
  function Rebilled(quota: int, info: Info, rate: Option<Rate>, w: Writes): int {
    if info.totalTokens > 0 && rate.Some? && rate.value.modelRatio > 0.0 then
      var actual := Price(info.totalTokens, rate.value);
      var delta := actual - quota;
      if delta > 0 && w.charge then delta
      else if delta < 0 && w.partialRefund then delta
      else 0
    else 0
  }

  predicate Known(status: string) {
    status in {SUBMITTED, QUEUED, IN_PROGRESS, SUCCESS, FAILURE}
  }

  predicate IsDataUrl(url: string) {
    |url| > 5 && url[..5] == "data:"
  }

  /** The fields written for an effective, known status. */
  function Progressed(task: Task, info: Info, now: int, quota: int): Task {
    var progress := if info.status == SUBMITTED then "10%" else if info.status == QUEUED then "20%"
                    else if info.status == IN_PROGRESS then "30%" else "100%";
    var shown := if info.status != FAILURE && info.progress != "" then info.progress else progress;
    Task(info.status, shown,
         if info.status == IN_PROGRESS && task.startTime == 0 then now else task.startTime,
         if (info.status == SUCCESS || info.status == FAILURE) && task.finishTime == 0 then now else task.finishTime,
         if info.status == FAILURE then info.reason
         else if info.status == SUCCESS && !IsDataUrl(info.url) then info.url else task.failReason,
         quota)
  }

  /** The account after one poll. */
  function Polled(a: Account, info0: Info, rate: Option<Rate>, now: int, w: Writes): Account {
    var info := Effective(info0);
    if !Known(info.status) then a
    else
      var delta := if info.status == SUCCESS then Rebilled(a.task.quota, info, rate, w) else 0;
      var saved := if w.save then Progressed(a.task, info, now, a.task.quota + delta) else a.task;
      var back := if info.status == FAILURE && a.task.status != FAILURE && w.save && w.failureRefund
                  then a.task.quota else 0;
      Account(saved, a.balance - delta + back)
  }

  // ---- the code --------------------------------------------------------------------------

  class Poller {
    var row: Task       // the stored task
    var balance: int    // the user's quota

    constructor (row: Task, balance: int)
      ensures this.row == row && this.balance == balance
    {
      this.row, this.balance := row, balance;
    }

    function View(): Account
      reads this
    {
      Account(row, balance)
    }

    /** The status switch, re-billing and refund of updateVideoSingleTask, on a
        fresh copy of the row. */
    method UpdateSingleTask(info0: Info, rate: Option<Rate>, now: int, w: Writes) returns (ok: bool)
      modifies this
      ensures View() == Polled(old(View()), info0, rate, now, w)
      ensures ok <==> Known(Effective(info0).status)
    {
      hide Rebilled, Price;
      var task, info := row, info0;
      if info.status == "" { info := Info(FAILURE, "", "", "upstream returned empty status", 0); }
      var shouldRefund, quota, preStatus := false, task.quota, task.status;
      task := task.(status := info.status);
      if info.status == SUBMITTED {
        task := task.(progress := "10%");
      } else if info.status == QUEUED {
        task := task.(progress := "20%");
      } else if info.status == IN_PROGRESS {
        task := task.(progress := "30%");
        if task.startTime == 0 { task := task.(startTime := now); }
      } else if info.status == SUCCESS {
        task := task.(progress := "100%");
        if task.finishTime == 0 { task := task.(finishTime := now); }
        if !IsDataUrl(info.url) { task := task.(failReason := info.url); }
        task := Rebill(task, info, rate, w);
      } else if info.status == FAILURE {
        task := task.(progress := "100%");
        if task.finishTime == 0 { task := task.(finishTime := now); }
        task := task.(failReason := info.reason);
        info := info.(progress := "100%");
        if quota != 0 && preStatus != FAILURE { shouldRefund := true; }
      } else {
        return false;
      }
      if info.progress != "" { task := task.(progress := info.progress); }
      if w.save { row := task; } else { shouldRefund := false; }
      if shouldRefund && w.failureRefund { balance := balance + quota; }
      return true;
    }

    /** Charge or return the difference to the token-based price. */
    method Rebill(before: Task, info: Info, rate: Option<Rate>, w: Writes) returns (task: Task)
      modifies this`balance
      ensures var delta := Rebilled(before.quota, info, rate, w);
        task == before.(quota := before.quota + delta) && balance == old(balance) - delta
    {
      hide Price;
      task := before;
      if info.totalTokens > 0 && rate.Some? && rate.value.modelRatio > 0.0 {
        var actual := Price(info.totalTokens, rate.value);
        var quotaDelta := actual - task.quota;
        if quotaDelta > 0 {
          if w.charge {
            balance := balance - quotaDelta;
            task := task.(quota := actual);
          }
        } else if quotaDelta < 0 {
          var refundQuota := -quotaDelta;
          if w.partialRefund {
            balance := balance + refundQuota;
            task := task.(quota := actual);
          }
        }
      }
    }
  }

  // ---- conservation --------------------------------------------------------------------------

  /** The charge outstanding on a task. */
  function Outstanding(task: Task): int {
    if task.status == FAILURE then 0 else task.quota
  }

  function Total(a: Account): int { a.balance + Outstanding(a.task) }

  /** Everything that can break the account in one poll: a failed task brought
      back to life, an adjustment that is not saved, a refund that is not made. */
  predicate Safe(a: Account, info0: Info, rate: Option<Rate>, w: Writes) {
    var info := Effective(info0);
    if !Known(info.status) then true
    else if info.status == FAILURE then !(w.save && a.task.status != FAILURE && a.task.quota != 0 && !w.failureRefund)
    else if w.save then a.task.status != FAILURE || a.task.quota == 0
    else info.status == SUCCESS ==> Rebilled(a.task.quota, info, rate, w) == 0
  }

  /** One poll conserves balance plus outstanding charge exactly when it is safe. */
  lemma ConservesExactlyWhenSafe(a: Account, info: Info, rate: Option<Rate>, now: int, w: Writes)
    ensures Total(Polled(a, info, rate, now, w)) == Total(a) <==> Safe(a, info, rate, w)
  {
    hide Rebilled;
    var d := Rebilled(a.task.quota, Effective(info), rate, w);
    var after := Polled(a, info, rate, now, w);
    assert w.save && Known(Effective(info).status) ==> after.task.status == Effective(info).status;
  }

  predicate Terminal(task: Task) { task.status == SUCCESS || task.status == FAILURE }

  datatype Poll = Poll(info: Info, rate: Option<Rate>, now: int)

  /** Only unfinished tasks are polled; every write succeeds. */
  function Run(a: Account, polls: seq<Poll>): Account
    decreases |polls|
  {
    if polls == [] then a
    else
      var mid := Run(a, polls[..|polls| - 1]);
      var p := polls[|polls| - 1];
      if Terminal(mid.task) then mid else Polled(mid, p.info, p.rate, p.now, ALL_OK)
  }

  /** Over every sequence of poll results balance plus outstanding charge is
      invariant through top-up charges, partial refunds and failure refunds. */
  lemma {:induction false} RunConserves(a: Account, polls: seq<Poll>)
    ensures Total(Run(a, polls)) == Total(a)
    decreases |polls|
  {
    hide Polled, Rebilled;
    if polls != [] {
      var init, p := polls[..|polls| - 1], polls[|polls| - 1];
      RunConserves(a, init);
      var mid := Run(a, init);
      if !Terminal(mid.task) {
        ConservesExactlyWhenSafe(mid, p.info, p.rate, p.now, ALL_OK);
      }
    }
  }

  /** A failed task has cost nothing; a finished one has cost what it records. */
  lemma FinalCost(a: Account, polls: seq<Poll>)
    requires a.task.status != FAILURE
    ensures var end := Run(a, polls);
      && (end.task.status == FAILURE ==> end.balance == a.balance + a.task.quota)
      && (end.task.status != FAILURE ==> end.balance == a.balance + a.task.quota - end.task.quota)
  {
    RunConserves(a, polls);
  }

  /** A charge whose task row is then not saved is made again by the next poll. */
  lemma UnsavedChargeIsRepeated(a: Account, info: Info, rate: Rate, now: int)
    requires info.status == SUCCESS && info.totalTokens > 0 && rate.modelRatio > 0.0
    requires Price(info.totalTokens, rate) > a.task.quota
    ensures var delta := Price(info.totalTokens, rate) - a.task.quota;
      var once := Polled(a, info, Some(rate), now, ALL_OK.(save := false));
      var twice := Polled(once, info, Some(rate), now, ALL_OK);
      once.task == a.task && twice.balance == a.balance - 2 * delta
  {
    hide Price;
    var delta := Price(info.totalTokens, rate) - a.task.quota;
    assert Rebilled(a.task.quota, info, Some(rate), ALL_OK) == delta;
    assert Rebilled(a.task.quota, info, Some(rate), ALL_OK.(save := false)) == delta;
    hide Rebilled;
    var once := Polled(a, info, Some(rate), now, ALL_OK.(save := false));
    assert once == Account(a.task, a.balance - delta);
  }

  // ---- what one poll does, spelled out ---------------------------------------------------

  /** `n` is tokens * modelRatio * groupRatio without its fraction. */
  ghost predicate IsTokenPrice(n: int, tokens: int, modelRatio: real, groupRatio: real) {
    var x := tokens as real * modelRatio * groupRatio;
    && (x >= 0.0 ==> n as real <= x < (n + 1) as real)
    && (x <= 0.0 ==> (n - 1) as real < x <= n as real)
  }

  lemma PriceIsTokenPrice(tokens: int, rate: Rate)
    ensures IsTokenPrice(Price(tokens, rate), tokens, rate.modelRatio, rate.groupRatio)
  {
  }

  /** A task that succeeds costs its token price in the end where the upstream reports
      tokens and a ratio applies, and what was charged in advance otherwise; the
      balance makes up the difference. */
  lemma SuccessCosts(a: Account, info: Info, rate: Option<Rate>, now: int)
    requires info.status == "SUCCESS"
    ensures var after := Polled(a, info, rate, now, ALL_OK);
      && after.task.status == "SUCCESS"
      && after.balance == a.balance + a.task.quota - after.task.quota
      && if info.totalTokens > 0 && rate.Some? && rate.value.modelRatio > 0.0
         then IsTokenPrice(after.task.quota, info.totalTokens, rate.value.modelRatio, rate.value.groupRatio)
         else after.task.quota == a.task.quota
  {
    if rate.Some? { PriceIsTokenPrice(info.totalTokens, rate.value); }
    hide Price, IsTokenPrice;
  }

  /** A task that fails, or is reported without a status, gives its charge back once;
      other statuses move no money. */
  lemma FailureRefunds(a: Account, info: Info, rate: Option<Rate>, now: int)
    requires info.status != "SUCCESS"
    ensures var after := Polled(a, info, rate, now, ALL_OK);
      if info.status == "FAILURE" || info.status == ""
      then after.task.status == "FAILURE" && after.task.quota == a.task.quota
           && after.balance == (if a.task.status == "FAILURE" then a.balance else a.balance + a.task.quota)
      else after.balance == a.balance && after.task.quota == a.task.quota
  {
    hide Rebilled;
  }

  /** Progress, times and reason recorded with each status; an unknown status
      records nothing. */
  lemma RecordedFields(a: Account, info: Info, rate: Option<Rate>, now: int)
    ensures var after := Polled(a, info, rate, now, ALL_OK).task;
      var status := if info.status == "" then "FAILURE" else info.status;
      if status !in ["SUBMITTED", "QUEUED", "IN_PROGRESS", "SUCCESS", "FAILURE"] then after == a.task
      else
        && after.status == status
        && after.progress == (if status == "FAILURE" then "100%" else if info.progress != "" then info.progress
                              else if status == "SUBMITTED" then "10%" else if status == "QUEUED" then "20%"
                              else if status == "IN_PROGRESS" then "30%" else "100%")
        && after.startTime == (if status == "IN_PROGRESS" && a.task.startTime == 0 then now else a.task.startTime)
        && after.finishTime == (if status in ["SUCCESS", "FAILURE"] && a.task.finishTime == 0 then now else a.task.finishTime)
        && (status == "FAILURE" && info.status != "" ==> after.failReason == info.reason)
        && (status == "SUCCESS" && !("data:" < info.url) ==> after.failReason == info.url)
        && (status == "SUCCESS" && "data:" < info.url ==> after.failReason == a.task.failReason)
        && (status !in ["SUCCESS", "FAILURE"] ==> after.failReason == a.task.failReason)
  {
    hide Rebilled;
    assert "data:" < info.url <==> IsDataUrl(info.url);
  }

  /** A task that is not saved keeps its row, and a quota write that fails moves no money. */
  lemma FailedWrites(a: Account, info: Info, rate: Option<Rate>, now: int, w: Writes)
    ensures !w.save ==> Polled(a, info, rate, now, w).task == a.task
    ensures !w.charge && !w.partialRefund && info.status == "SUCCESS" ==> Polled(a, info, rate, now, w).balance == a.balance
    ensures !w.failureRefund && info.status == "FAILURE" ==> Polled(a, info, rate, now, w).balance == a.balance
  {
  }
}
