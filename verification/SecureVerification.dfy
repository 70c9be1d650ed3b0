/**
 Step-up verification in one login session: a passkey ceremony leaves a
 short-lived ready marker, a verification request turns the marker (or a
 two-factor code) into a time-stamped verification, and protected operations
 check that stamp and the method it was obtained with.
 */
module SecureVerification {
  import opened Common

  const SECURE_VERIFICATION_TIMEOUT := 300
  const PASSKEY_READY_TIMEOUT := 60
  const TWO_FA := "2fa"
  const PASSKEY := "passkey"

  /** A session value that should be a time stamp. */
  datatype Stored = Absent | At(time: int) | Malformed

  /** The three session keys; `via`, the method, is None when absent or not a string. */
  datatype Session = Session(readyAt: Stored, verifiedAt: Stored, via: Option<string>)

  /** A request to verify: what the account has enrolled, whether the two-factor
      code is present and right, when the marker is examined and when the success
      is stamped, and which of the two session saves succeed. */
  datatype Request = Request(via: string, has2FA: bool, hasPasskey: bool, codeOk: bool,
                             consumedAt: int, takeSaved: bool, saved: bool)

  /** What happens to a session, each at a time, and whether the session save works. */
  datatype Event =
    | PasskeyFinish(now: int, saved: bool)
    | Verify(req: Request, now: int)
    | RequireMethod(via: string, now: int, saved: bool)
    | RequireAny(now: int, saved: bool)
    | ClearVerification(now: int, saved: bool)
    | Logout(now: int, saved: bool)

  // ---- what each event does ---------------------------------------------------------------------

  function Cleared(s: Session): Session { s.(verifiedAt := Absent, via := None) }

  function Consumed(s: Session, saved: bool): Session {
    if saved then s.(readyAt := Absent) else s
  }

  /** The marker can be used: a time stamp, deleted durably, and young. */
  predicate MarkerUsable(s: Session, req: Request) {
    s.readyAt.At? && req.takeSaved && req.consumedAt - s.readyAt.time < PASSKEY_READY_TIMEOUT
  }

  predicate Succeeds(s: Session, e: Event) {
    && e.Verify? && e.req.saved
    && ((e.req.via == TWO_FA && e.req.has2FA && e.req.codeOk)
        || (e.req.via == PASSKEY && e.req.hasPasskey && MarkerUsable(s, e.req)))
  }

  predicate Live(s: Session, now: int) {
    s.verifiedAt.At? && now - s.verifiedAt.time < SECURE_VERIFICATION_TIMEOUT
  }

  predicate Passes(s: Session, via: string, now: int) {
    Live(s, now) && s.via == Some(via)
  }

  function After(s: Session, e: Event): Session {
    match e
    case PasskeyFinish(now, saved) => if saved then Session(At(now), Absent, None) else s
    case Verify(req, now) =>
      if Succeeds(s, e) then Session(Absent, At(now), Some(req.via))
      else if req.via == PASSKEY && req.hasPasskey then Consumed(s, req.takeSaved)
      else s
    case RequireMethod(_, now, saved) => if Live(s, now) || !saved then s else Cleared(s)
    case RequireAny(now, saved) => if s.verifiedAt.Absent? || Live(s, now) || !saved then s else Cleared(s)
    case ClearVerification(_, saved) => if saved then Cleared(s) else s
    case Logout(_, saved) => if saved then Session(Absent, Absent, None) else s
  }

  // ---- the code ---------------------------------------------------------------------------------

  /** The stored session. A handler works on its own copy, `s`, and stores it when Save succeeds. */
  class SessionStore {
    var readyAt: Stored
    var verifiedAt: Stored
    var via: Option<string>

    constructor ()
      ensures View() == Session(Absent, Absent, None)
    {
      readyAt, verifiedAt, via := Absent, Absent, None;
    }

    function View(): Session
      reads this
    {
      Session(readyAt, verifiedAt, via)
    }

    method Save(s: Session, saved: bool)
      modifies this
      ensures View() == if saved then s else old(View())
    {
      if saved { readyAt, verifiedAt, via := s.readyAt, s.verifiedAt, s.via; }
    }

    /** The session update at the end of PasskeyVerifyFinish. */
    method PasskeyVerifyFinish(now: int, saved: bool) returns (ok: bool)
      modifies this
      ensures View() == After(old(View()), PasskeyFinish(now, saved)) && ok == saved
    {
      var s := View();
      s := s.(readyAt := At(now));
      s := s.(verifiedAt := Absent);
      s := s.(via := None);
      Save(s, saved);
      return saved;
    }

    /** Whether a young marker was there; it is gone afterwards either way. */
    method ConsumePasskeyReady(now: int, saved: bool) returns (ok: bool)
      modifies this
      ensures View() == Consumed(old(View()), saved)
      ensures ok <==> old(readyAt).At? && saved && now - old(readyAt).time < PASSKEY_READY_TIMEOUT
    {
      var s := View();
      if s.readyAt.Absent? { return false; }
      if s.readyAt.Malformed? {
        Save(s.(readyAt := Absent), saved);
        return false;
      }
      Save(s.(readyAt := Absent), saved);
      if !saved { return false; }
      return !(now - s.readyAt.time >= PASSKEY_READY_TIMEOUT);
    }

    method SetSecureVerificationSession(m: string, now: int, saved: bool)
      modifies this
      ensures View() == if saved then Session(Absent, At(now), Some(m)) else old(View())
    {
      var s := View();
      s := s.(readyAt := Absent);
      s := s.(verifiedAt := At(now));
      s := s.(via := Some(m));
      Save(s, saved);
    }

    method UniversalVerify(req: Request, now: int) returns (ok: bool)
      modifies this
      ensures View() == After(old(View()), Verify(req, now))
      ensures ok == Succeeds(old(View()), Verify(req, now))
    {
      if !req.has2FA && !req.hasPasskey { return false; }
      var verified := false;
      if req.via == TWO_FA {
        if !req.has2FA { return false; }
        verified := req.codeOk;
      } else if req.via == PASSKEY {
        if !req.hasPasskey { return false; }
        verified := ConsumePasskeyReady(req.consumedAt, req.takeSaved);
      } else {
        return false;
      }
      if !verified { return false; }
      SetSecureVerificationSession(req.via, now, req.saved);
      return req.saved;
    }

    method RequireSecureVerificationMethod(m: string, now: int, saved: bool) returns (ok: bool)
      modifies this
      ensures View() == After(old(View()), RequireMethod(m, now, saved))
      ensures ok == Passes(old(View()), m, now)
    {
      var s := View();
      if !s.verifiedAt.At? || now - s.verifiedAt.time >= SECURE_VERIFICATION_TIMEOUT {
        Save(Cleared(s), saved);
        return false;
      }
      if s.via.None? || s.via.value != m { return false; }
      return true;
    }

    /** The middleware check, which accepts any method. */
    method SecureVerificationRequired(now: int, saved: bool) returns (ok: bool)
      modifies this
      ensures View() == After(old(View()), RequireAny(now, saved))
      ensures ok == Live(old(View()), now)
    {
      var s := View();
      if s.verifiedAt.Absent? { return false; }
      if s.verifiedAt.Malformed? {
        Save(Cleared(s), saved);
        return false;
      }
      if now - s.verifiedAt.time >= SECURE_VERIFICATION_TIMEOUT {
        Save(Cleared(s), saved);
        return false;
      }
      return true;
    }
  }

  // ---- runs -------------------------------------------------------------------------------------

  /** The session after the first n events of a run. */
  ghost function StateAt(s0: Session, run: seq<Event>, n: nat): Session
    requires n <= |run|
  {
    if n == 0 then s0 else After(StateAt(s0, run, n - 1), run[n - 1])
  }

  /** A session that holds no time stamp yet. */
  ghost predicate Initial(s: Session) { !s.readyAt.At? && !s.verifiedAt.At? }

  /** Event k is a verification that succeeded. */
  ghost predicate Granted(s0: Session, run: seq<Event>, k: nat)
    requires k < |run|
  {
    Succeeds(StateAt(s0, run, k), run[k])
  }

  /** Event k ends the verification in force, if any. */
  ghost predicate Ends(s0: Session, run: seq<Event>, k: nat)
    requires k < |run|
  {
    Granted(s0, run, k) ||
    ((run[k].PasskeyFinish? || run[k].ClearVerification? || run[k].Logout?) && run[k].saved)
  }

  /** The success of event v has not been cleared or replaced among the first n events. */
  ghost predicate Stands(s0: Session, run: seq<Event>, n: nat, v: nat)
    requires n <= |run|
  {
    v < n && Granted(s0, run, v) && forall k :: v < k < n ==> !Ends(s0, run, k)
  }

  /** A verification by this method, less than 300 seconds old. */
  ghost predicate Recent(e: Event, via: string, now: int) {
    e.Verify? && e.req.via == via && now - e.now < 300
  }

  /** Event k uses up the ready marker, if any. */
  ghost predicate Takes(s0: Session, run: seq<Event>, k: nat)
    requires k < |run|
  {
    || Granted(s0, run, k)
    || ((run[k].PasskeyFinish? || run[k].Logout?) && run[k].saved)
    || (run[k].Verify? && run[k].req.via == PASSKEY && run[k].req.hasPasskey && run[k].req.takeSaved)
  }

  /** The marker set by event r is still unused after the first n events. */
  ghost predicate Ready(s0: Session, run: seq<Event>, n: nat, r: nat)
    requires n <= |run|
  {
    r < n && run[r].PasskeyFinish? && run[r].saved && forall k :: r < k < n ==> !Takes(s0, run, k)
  }

  lemma OnlyRequestsSucceed(s: Session, e: Event)
    ensures Succeeds(s, e) ==> e.Verify?
  {
  }

  /** A stored stamp always comes from a success that still stands. */
  lemma {:induction false} StampHasGrant(s0: Session, run: seq<Event>, n: nat) returns (v: nat)
    requires n <= |run| && Initial(s0) && StateAt(s0, run, n).verifiedAt.At?
    ensures Stands(s0, run, n, v) && run[v].Verify?
    ensures StateAt(s0, run, n).verifiedAt == At(run[v].now)
    ensures StateAt(s0, run, n).via == Some(run[v].req.via)
  {
    hide Succeeds;
    OnlyRequestsSucceed(StateAt(s0, run, n - 1), run[n - 1]);
    if Granted(s0, run, n - 1) {
      v := n - 1;
    } else {
      v := StampHasGrant(s0, run, n - 1);
    }
  }

  /** A success that stands is still stored, until it is too old. */
  lemma {:induction false} GrantKeepsStamp(s0: Session, run: seq<Event>, n: nat, v: nat, now: int)
    requires n <= |run| && Stands(s0, run, n, v)
    requires forall k :: 0 <= k < n ==> run[k].now <= now
    requires now - run[v].now < SECURE_VERIFICATION_TIMEOUT
    ensures run[v].Verify?
    ensures StateAt(s0, run, n).verifiedAt == At(run[v].now)
    ensures StateAt(s0, run, n).via == Some(run[v].req.via)
  {
    hide Succeeds;
    OnlyRequestsSucceed(StateAt(s0, run, v), run[v]);
    if v < n - 1 {
      GrantKeepsStamp(s0, run, n - 1, v, now);
      assert !Ends(s0, run, n - 1);
      assert run[n - 1].now <= now;
    }
  }

  /** With a clock that does not run backwards, the check passes for a method
      exactly when a verification by that method succeeded less than 300 seconds
      ago and has been neither cleared nor replaced since. */
  lemma CheckPassesExactly(s0: Session, run: seq<Event>, via: string, now: int)
    requires Initial(s0) && forall k :: 0 <= k < |run| ==> run[k].now <= now
    ensures Passes(StateAt(s0, run, |run|), via, now) <==>
      exists v: nat :: Stands(s0, run, |run|, v) && Recent(run[v], via, now)
  {
    hide StateAt, Succeeds;
    var s := StateAt(s0, run, |run|);
    if s.verifiedAt.At? {
      var v := StampHasGrant(s0, run, |run|);
      assert Stands(s0, run, |run|, v);
      if Passes(s, via, now) { assert Recent(run[v], via, now); }
    }
    if v: nat :| Stands(s0, run, |run|, v) && Recent(run[v], via, now) {
      GrantKeepsStamp(s0, run, |run|, v, now);
    }
  }

  /** A stored marker always comes from a passkey ceremony and is unused. */
  lemma {:induction false} MarkerHasCeremony(s0: Session, run: seq<Event>, n: nat) returns (r: nat)
    requires n <= |run| && Initial(s0) && StateAt(s0, run, n).readyAt.At?
    ensures Ready(s0, run, n, r) && StateAt(s0, run, n).readyAt == At(run[r].now)
  {
    if run[n - 1].PasskeyFinish? && run[n - 1].saved {
      r := n - 1;
    } else {
      hide Succeeds;
      r := MarkerHasCeremony(s0, run, n - 1);
    }
  }

  lemma {:induction false} CeremonyKeepsMarker(s0: Session, run: seq<Event>, n: nat, r: nat)
    requires n <= |run| && Ready(s0, run, n, r)
    ensures StateAt(s0, run, n).readyAt == At(run[r].now)
  {
    hide Succeeds;
    if r < n - 1 {
      CeremonyKeepsMarker(s0, run, n - 1, r);
      assert !Takes(s0, run, n - 1);
    }
  }

  /** A passkey verification succeeds exactly when it is allowed and saved and an
      unused marker set less than 60 seconds before it is at hand. */
  lemma PasskeySucceedsExactly(s0: Session, run: seq<Event>, v: nat)
    requires Initial(s0) && v < |run| && run[v].Verify? && run[v].req.via == PASSKEY
    ensures Granted(s0, run, v) <==>
      && run[v].req.hasPasskey && run[v].req.takeSaved && run[v].req.saved
      && exists r: nat :: Ready(s0, run, v, r) && run[v].req.consumedAt - run[r].now < 60
  {
    hide StateAt;
    var s := StateAt(s0, run, v);
    if s.readyAt.At? {
      var r := MarkerHasCeremony(s0, run, v);
      assert Ready(s0, run, v, r);
    }
    if r: nat :| Ready(s0, run, v, r) && run[v].req.consumedAt - run[r].now < PASSKEY_READY_TIMEOUT {
      CeremonyKeepsMarker(s0, run, v, r);
    }
  }

  /** Each marker supports at most one success: a marker ready for a success is
      set after every earlier success, and only one marker is ready at a time. */
  lemma OneSuccessPerMarker(s0: Session, run: seq<Event>, v: nat, w: nat, r: nat, q: nat)
    requires v < w < |run| && Granted(s0, run, v)
    requires Ready(s0, run, w, r)
    requires Ready(s0, run, v, q)
    ensures q < v < r
  {
    assert !(r < v) by {
      if r < v { assert Takes(s0, run, v); }
    }
    OnlyRequestsSucceed(StateAt(s0, run, v), run[v]);
  }

  /** A check passed by passkey rests on a ceremony of its own: set less than 60
      seconds before the marker was taken, after every earlier success. */
  lemma PasskeyCheckHasCeremony(s0: Session, run: seq<Event>, now: int) returns (r: nat, v: nat)
    requires Initial(s0) && (forall k :: 0 <= k < |run| ==> run[k].now <= now)
    requires Passes(StateAt(s0, run, |run|), PASSKEY, now)
    ensures r < v < |run| && Stands(s0, run, |run|, v) && now - run[v].now < 300
    ensures run[v].Verify? && Ready(s0, run, v, r)
    ensures run[v].req.consumedAt - run[r].now < 60
    ensures forall u :: 0 <= u < v && Granted(s0, run, u) ==> u < r
  {
    hide StateAt, Succeeds;
    CheckPassesExactly(s0, run, PASSKEY, now);
    v :| Stands(s0, run, |run|, v) && Recent(run[v], PASSKEY, now);
    PasskeySucceedsExactly(s0, run, v);
    r :| Ready(s0, run, v, r) && run[v].req.consumedAt - run[r].now < PASSKEY_READY_TIMEOUT;
    forall u | 0 <= u < v && Granted(s0, run, u)
      ensures u < r
    {
      OnlyRequestsSucceed(StateAt(s0, run, u), run[u]);
      assert Takes(s0, run, u);
    }
  }

  /** A two-factor verification succeeds exactly when two-factor is enrolled, the
      code is right and the session is saved, in every run; no other method but
      passkey ever succeeds. */
  lemma TwoFactorSucceedsExactly(s0: Session, run: seq<Event>, v: nat)
    requires v < |run| && run[v].Verify?
    ensures run[v].req.via == "2fa" ==>
      (Granted(s0, run, v) <==> run[v].req.has2FA && run[v].req.codeOk && run[v].req.saved)
    ensures run[v].req.via != "2fa" && run[v].req.via != "passkey" ==> !Granted(s0, run, v)
  {
    hide StateAt;
  }

  /** A check passed by two-factor rests on a right code given less than 300 seconds
      ago and not cleared or replaced since; and no check passes by another method
      than the two. */
  lemma TwoFactorCheckHasCode(s0: Session, run: seq<Event>, via: string, now: int) returns (v: nat)
    requires Initial(s0) && via != "passkey" && (forall k :: 0 <= k < |run| ==> run[k].now <= now)
    requires Passes(StateAt(s0, run, |run|), via, now)
    ensures via == "2fa" && Stands(s0, run, |run|, v) && run[v].Verify? && now - run[v].now < 300
    ensures run[v].req.via == "2fa" && run[v].req.has2FA && run[v].req.codeOk
  {
    hide StateAt, Succeeds;
    CheckPassesExactly(s0, run, via, now);
    v :| Stands(s0, run, |run|, v) && Recent(run[v], via, now);
    TwoFactorSucceedsExactly(s0, run, v);
  }

  /** A check that finds no live stamp clears stamp and method and nothing else; one
      that finds a live stamp of another method leaves the session alone. */
  lemma FailedCheckClears(s: Session, via: string, now: int)
    ensures var after := After(s, RequireMethod(via, now, true));
      if s.verifiedAt.At? && now - s.verifiedAt.time < 300 then after == s
      else after == Session(s.readyAt, Absent, None)
  {
  }
}
