/**
 * The one-time-password lifecycle engine (`OTPService`).
 *
 * The service keeps a table of verification records, one row per code ever
 * issued. Each (email, purpose) pair moves through create, verify, resend,
 * status, invalidate and the 24-hour cleanup. The table is modelled as a
 * sequence in insertion order; a lookup that takes `.first()` of a query
 * picks the earliest matching row. Time is an integer number of seconds, the
 * random digits are passed in as draws and sending an email is an oracle
 * whose answer is a parameter; every attempted send is recorded in an outbox.
 */
module Otp {
  import opened Wrappers
  import opened Text
  import opened Numbers

  /** The service configuration read from the environment when it is constructed. */
  datatype Config = Config(otpLength: nat, expiryMinutes: int, maxAttempts: int,
                           cooldownMinutes: int, cleanupEnabled: bool)

  /** The environment defaults: 6 digits, 10 minutes, 3 attempts, 2 minutes of cooldown, cleanup on. */
  const DefaultConfig := Config(6, 10, 3, 2, true)

  /** One row of the verification table. */
  datatype OtpRecord = OtpRecord(email: string, purpose: string, code: string,
                                 createdAt: int, expiresAt: int,
                                 attempts: int, maxAttempts: int,
                                 isActive: bool, isVerified: bool, verifiedAt: Option<int>)

  /** A call of `send_otp_email(email, otp_code, purpose)`. */
  datatype Mail = Mail(to: string, code: string, purpose: string)

  /** Retention of expired rows before cleanup deletes them: 24 hours. */
  const RetentionSeconds: int := 24 * 60 * 60

  // Messages the service returns.
  const NoActiveOtp := "No active OTP found for this email"
  const OtpExpired := "OTP has expired. Please request a new one"
  const AttemptsExceeded := "Maximum verification attempts exceeded. Please request a new OTP"
  const InvalidCodeExhausted := "Invalid OTP code. Maximum attempts exceeded"
  const OtpVerified := "OTP verified successfully"
  const NoActiveOtpToResend := "No active OTP found to resend"
  const OtpResent := "OTP resent successfully"
  const SendFailed := "Failed to send OTP email"
  const ResendFailed := "Failed to resend OTP. Please try again"

  function InvalidCode(remaining: nat): string
  {
    "Invalid OTP code. " + NatToString(remaining) + " attempts remaining"
  }

  function PleaseWait(seconds: nat): string
  {
    "Please wait " + NatToString(seconds) + " seconds before requesting a new OTP"
  }

  function CooldownSeconds(cfg: Config): int { cfg.cooldownMinutes * 60 }

  // ---------------------------------------------------------------------
  // Queries

  /**
   * A filter on the table: the email, the purpose, `is_active == True`, and,
   * when `unexpiredAt` is present, `expires_at > unexpiredAt`.
   */
  datatype Query = Query(email: string, purpose: string, unexpiredAt: Option<int>)

  predicate Matches(r: OtpRecord, q: Query)
  {
    r.email == q.email && r.purpose == q.purpose && r.isActive
    && (q.unexpiredAt.Some? ==> r.expiresAt > q.unexpiredAt.value)
  }

  /** The active records of a pair: the filter of verify, resend and status. */
  function ActiveQuery(email: string, purpose: string): Query { Query(email, purpose, None) }

  /** The active records of a pair that are unexpired at `now`: the filter of create. */
  function LiveQuery(email: string, purpose: string, now: int): Query { Query(email, purpose, Some(now)) }

  /** `.first()` of a query, searching from index `from`. */
  function FirstFrom(records: seq<OtpRecord>, q: Query, from: nat): (i: Option<nat>)
    requires from <= |records|
    ensures i.Some? ==> from <= i.value < |records| && Matches(records[i.value], q)
    ensures i.Some? ==> forall j :: from <= j < i.value ==> !Matches(records[j], q)
    ensures i.None? ==> forall j :: from <= j < |records| ==> !Matches(records[j], q)
    decreases |records| - from
  {
    if from == |records| then None
    else if Matches(records[from], q) then Some(from)
    else FirstFrom(records, q, from + 1)
  }

  /** `.first()` of a query: the earliest matching row, or none when nothing matches. */
  function First(records: seq<OtpRecord>, q: Query): (i: Option<nat>)
    ensures i.Some? ==> i.value < |records| && Matches(records[i.value], q)
    ensures i.Some? ==> forall j :: 0 <= j < i.value ==> !Matches(records[j], q)
    ensures i.None? ==> forall j :: 0 <= j < |records| ==> !Matches(records[j], q)
  {
    FirstFrom(records, q, 0)
  }

  // ---------------------------------------------------------------------
  // Invariants

  predicate SamePair(a: OtpRecord, b: OtpRecord)
  {
    a.email == b.email && a.purpose == b.purpose
  }

  predicate Live(r: OtpRecord, now: int)
  {
    r.isActive && r.expiresAt > now
  }

  /** For each (email, purpose), at most one row is both active and unexpired at `now`. */
  predicate AtMostOneLive(records: seq<OtpRecord>, now: int)
  {
    forall i, j ::
      (0 <= i < |records| && 0 <= j < |records| && i != j && Live(records[i], now) && Live(records[j], now))
      ==> !SamePair(records[i], records[j])
  }

  /** The shape every row keeps: attempts within bounds, and verified rows closed and time-stamped. */
  predicate RecordOk(r: OtpRecord)
  {
    && 0 <= r.attempts
    && (r.attempts == 0 || r.attempts <= r.maxAttempts)
    && (r.isVerified <==> r.verifiedAt.Some?)
    && (r.isVerified ==> !r.isActive)
  }

  predicate AllOk(records: seq<OtpRecord>)
  {
    forall i :: 0 <= i < |records| ==> RecordOk(records[i])
  }

  /**
   * `after` is `before` with some rows possibly deactivated or otherwise
   * updated, but no row moved, re-keyed, re-timed or re-activated.
   */
  predicate Weakens(before: seq<OtpRecord>, after: seq<OtpRecord>)
  {
    |after| == |before|
    && forall i :: 0 <= i < |before| ==>
         SamePair(after[i], before[i]) && after[i].expiresAt == before[i].expiresAt
         && (after[i].isActive ==> before[i].isActive)
  }

  /** Passing time never makes a second row live. */
  lemma AtMostOneLiveLater(records: seq<OtpRecord>, now: int, later: int)
    requires AtMostOneLive(records, now)
    requires now <= later
    ensures AtMostOneLive(records, later)
  {
  }

  lemma WeakeningKeepsAtMostOneLive(before: seq<OtpRecord>, after: seq<OtpRecord>, now: int)
    requires AtMostOneLive(before, now)
    requires Weakens(before, after)
    ensures AtMostOneLive(after, now)
  {
    forall i, j | 0 <= i < |after| && 0 <= j < |after| && i != j && Live(after[i], now) && Live(after[j], now)
      ensures !SamePair(after[i], after[j])
    {
      assert Live(before[i], now) && Live(before[j], now);
    }
  }

  // ---------------------------------------------------------------------
  // generate_otp and create_otp_verification

  /** `generate_otp`: one decimal digit per draw of the random source. */
  function GenerateOtp(draws: seq<int>): (code: string)
    ensures |code| == |draws|
    ensures AllDigits(code)
  {
    seq(|draws|, i requires 0 <= i < |draws| => DigitChar(draws[i] % 10))
  }

  /** The row `create_otp_verification` adds. */
  function NewRecord(cfg: Config, email: string, purpose: string, code: string, now: int): OtpRecord
  {
    OtpRecord(email, purpose, code, now, now + cfg.expiryMinutes * 60, 0, cfg.maxAttempts, true, false, None)
  }

  /** What `create_otp_verification` returns: the code and the email result, or the cooldown `ValueError`. */
  datatype CreateOutcome = Created(code: string, emailSent: bool) | CooldownActive(remainingSeconds: nat)

  /** `create_otp_verification` with the new code `code` and the oracle's answer `emailSent`: the outcome and the new table. */
  function CreateStep(cfg: Config, records: seq<OtpRecord>, email: string, purpose: string, now: int,
                      code: string, emailSent: bool): (CreateOutcome, seq<OtpRecord>)
  {
    match First(records, LiveQuery(email, purpose, now))
    case None => (Created(code, emailSent), records + [NewRecord(cfg, email, purpose, code, now)])
    case Some(i) =>
      var age := now - records[i].createdAt;
      if age < CooldownSeconds(cfg) then (CooldownActive(CooldownSeconds(cfg) - age), records)
      else (Created(code, emailSent),
            records[i := records[i].(isActive := false)] + [NewRecord(cfg, email, purpose, code, now)])
  }

  /**
   * The cooldown rule: create is refused exactly when some row of the pair is
   * live and younger than the cooldown; the refusal names the seconds left,
   * which are positive, and leaves the table as it was.
   */
  lemma CreateCooldown(cfg: Config, records: seq<OtpRecord>, email: string, purpose: string, now: int,
                       code: string, emailSent: bool)
    requires AtMostOneLive(records, now)
    ensures var (o, rs) := CreateStep(cfg, records, email, purpose, now, code, emailSent);
            && (o.CooldownActive? <==>
                 exists j :: 0 <= j < |records| && Matches(records[j], LiveQuery(email, purpose, now))
                             && now - records[j].createdAt < CooldownSeconds(cfg))
            && (o.CooldownActive? ==> rs == records && o.remainingSeconds > 0)
            && (o.CooldownActive? ==> exists j :: 0 <= j < |records| && Matches(records[j], LiveQuery(email, purpose, now))
                                                 && o.remainingSeconds == CooldownSeconds(cfg) - (now - records[j].createdAt))
  {
    var (o, rs) := CreateStep(cfg, records, email, purpose, now, code, emailSent);
    var f := First(records, LiveQuery(email, purpose, now));
    if f.Some? {
      var i := f.value;
      forall j | 0 <= j < |records| && Matches(records[j], LiveQuery(email, purpose, now))
        ensures j == i
      {
        assert Live(records[j], now) && Live(records[i], now);
      }
    }
  }

  /**
   * A successful create deactivates the pair's live row, if any, leaves every
   * other row alone, and appends exactly one fresh row holding the code; it
   * returns that code with the email result whatever that result was.
   */
  lemma CreateSuccess(cfg: Config, records: seq<OtpRecord>, email: string, purpose: string, now: int,
                      code: string, emailSent: bool)
    requires AtMostOneLive(records, now)
    ensures var (o, rs) := CreateStep(cfg, records, email, purpose, now, code, emailSent);
            o.Created? ==>
              && o == Created(code, emailSent)
              && |rs| == |records| + 1
              && rs[|records|] == NewRecord(cfg, email, purpose, code, now)
              && rs[|records|].expiresAt == now + cfg.expiryMinutes * 60
              && rs[|records|].maxAttempts == cfg.maxAttempts
              && (forall j :: 0 <= j < |records| ==>
                    rs[j] == if Matches(records[j], LiveQuery(email, purpose, now))
                             then records[j].(isActive := false) else records[j])
  {
    var f := First(records, LiveQuery(email, purpose, now));
    if f.Some? {
      var i := f.value;
      forall j | 0 <= j < |records| && Matches(records[j], LiveQuery(email, purpose, now))
        ensures j == i
      {
        assert Live(records[j], now) && Live(records[i], now);
      }
    }
  }

  /** Create keeps at most one live row per pair. */
  lemma CreateKeepsAtMostOneLive(cfg: Config, records: seq<OtpRecord>, email: string, purpose: string, now: int,
                                 code: string, emailSent: bool)
    requires AtMostOneLive(records, now)
    ensures AtMostOneLive(CreateStep(cfg, records, email, purpose, now, code, emailSent).1, now)
  {
    var (o, rs) := CreateStep(cfg, records, email, purpose, now, code, emailSent);
    if o.Created? {
      var f := First(records, LiveQuery(email, purpose, now));
      var w := if f.Some? then records[f.value := records[f.value].(isActive := false)] else records;
      assert rs == w + [NewRecord(cfg, email, purpose, code, now)];
      assert Weakens(records, w);
      WeakeningKeepsAtMostOneLive(records, w, now);
      forall a | 0 <= a < |w| && Live(w[a], now)
        ensures !SamePair(w[a], rs[|w|])
      {
        if f.Some? && a != f.value {
          assert w[a] == records[a];
          assert Live(records[f.value], now);
        }
      }
    }
  }

  lemma CreateKeepsAllOk(cfg: Config, records: seq<OtpRecord>, email: string, purpose: string, now: int,
                         code: string, emailSent: bool)
    requires AllOk(records)
    ensures AllOk(CreateStep(cfg, records, email, purpose, now, code, emailSent).1)
  {
  }

  // ---------------------------------------------------------------------
  // verify_otp

  /** What `verify_otp` returns: validity, message and the row it looked at, as left by the call. */
  datatype VerifyOutcome = VerifyOutcome(valid: bool, message: string, record: Option<OtpRecord>)

  /** `verify_otp` of `code` at `now`: the outcome and the new table. */
  function VerifyStep(records: seq<OtpRecord>, email: string, purpose: string, code: string, now: int)
    : (VerifyOutcome, seq<OtpRecord>)
  {
    match First(records, ActiveQuery(email, purpose))
    case None => (VerifyOutcome(false, NoActiveOtp, None), records)
    case Some(i) =>
      var r := records[i];
      if now > r.expiresAt then
        var r' := r.(isActive := false);
        (VerifyOutcome(false, OtpExpired, Some(r')), records[i := r'])
      else if r.attempts >= r.maxAttempts then
        var r' := r.(isActive := false);
        (VerifyOutcome(false, AttemptsExceeded, Some(r')), records[i := r'])
      else
        var r1 := r.(attempts := r.attempts + 1);
        if r1.code != code then
          if r1.maxAttempts - r1.attempts > 0 then
            (VerifyOutcome(false, InvalidCode(r1.maxAttempts - r1.attempts), Some(r1)), records[i := r1])
          else
            var r2 := r1.(isActive := false);
            (VerifyOutcome(false, InvalidCodeExhausted, Some(r2)), records[i := r2])
        else
          var r2 := r1.(isVerified := true, verifiedAt := Some(now), isActive := false);
          (VerifyOutcome(true, OtpVerified, Some(r2)), records[i := r2])
  }

  /** With no active row for the pair, verify reports so, returns no row and changes nothing. */
  lemma VerifyWithoutActive(records: seq<OtpRecord>, email: string, purpose: string, code: string, now: int)
    requires forall j :: 0 <= j < |records| ==> !Matches(records[j], ActiveQuery(email, purpose))
    ensures VerifyStep(records, email, purpose, code, now) == (VerifyOutcome(false, NoActiveOtp, None), records)
  {
  }

  /**
   * The early exits: an expired row is reported as expired before its
   * attempts are looked at, an exhausted row as exhausted; both deactivate
   * the row without counting an attempt and return False.
   */
  lemma VerifyEarlyExits(records: seq<OtpRecord>, email: string, purpose: string, code: string, now: int)
    requires First(records, ActiveQuery(email, purpose)).Some?
    ensures var i := First(records, ActiveQuery(email, purpose)).value;
            var r := records[i];
            var (o, rs) := VerifyStep(records, email, purpose, code, now);
            (now > r.expiresAt || r.attempts >= r.maxAttempts) ==>
              && !o.valid
              && o.message == (if now > r.expiresAt then OtpExpired else AttemptsExceeded)
              && rs == records[i := r.(isActive := false)]
              && rs[i].attempts == r.attempts
  {
  }

  /**
   * Otherwise verify counts exactly one attempt and succeeds exactly when the
   * code matches. A mismatch leaves the row active while attempts remain,
   * naming how many, and deactivates it when none do. A match marks the row
   * verified at `now` and closes it.
   */
  lemma VerifyCountsAttempt(records: seq<OtpRecord>, email: string, purpose: string, code: string, now: int)
    requires First(records, ActiveQuery(email, purpose)).Some?
    ensures var i := First(records, ActiveQuery(email, purpose)).value;
            var r := records[i];
            var (o, rs) := VerifyStep(records, email, purpose, code, now);
            (now <= r.expiresAt && r.attempts < r.maxAttempts) ==>
              && |rs| == |records|
              && (forall j :: 0 <= j < |records| && j != i ==> rs[j] == records[j])
              && rs[i].attempts == r.attempts + 1
              && o.record == Some(rs[i])
              && (o.valid <==> code == r.code)
              && (o.valid ==> rs[i].isVerified && rs[i].verifiedAt == Some(now) && !rs[i].isActive
                              && o.message == OtpVerified)
              && (!o.valid && r.maxAttempts - (r.attempts + 1) > 0 ==>
                    rs[i].isActive && o.message == InvalidCode(r.maxAttempts - (r.attempts + 1)))
              && (!o.valid && r.maxAttempts - (r.attempts + 1) <= 0 ==>
                    !rs[i].isActive && o.message == InvalidCodeExhausted)
  {
  }

  /** Verify only ever updates the row it found, and never reopens, moves or re-times a row. */
  lemma VerifyWeakens(records: seq<OtpRecord>, email: string, purpose: string, code: string, now: int)
    ensures var rs := VerifyStep(records, email, purpose, code, now).1;
            && Weakens(records, rs)
            && (forall j :: 0 <= j < |records| && !records[j].isActive ==> rs[j] == records[j])
  {
  }

  lemma VerifyKeepsAtMostOneLive(records: seq<OtpRecord>, email: string, purpose: string, code: string, now: int, t: int)
    requires AtMostOneLive(records, t)
    ensures AtMostOneLive(VerifyStep(records, email, purpose, code, now).1, t)
  {
    VerifyWeakens(records, email, purpose, code, now);
    WeakeningKeepsAtMostOneLive(records, VerifyStep(records, email, purpose, code, now).1, t);
  }

  /** Verify keeps every row's attempts within its maximum and every verified row closed. */
  lemma VerifyKeepsAllOk(records: seq<OtpRecord>, email: string, purpose: string, code: string, now: int)
    requires AllOk(records)
    ensures AllOk(VerifyStep(records, email, purpose, code, now).1)
  {
    var f := First(records, ActiveQuery(email, purpose));
    if f.Some? {
      var rs := VerifyStep(records, email, purpose, code, now).1;
      forall j | 0 <= j < |rs| ensures RecordOk(rs[j]) {
        if j != f.value {
          assert rs[j] == records[j];
        }
      }
    }
  }

  /**
   * A code is good once: after a successful verify of the pair's only active
   * row, any later verify of the pair reports that there is no active code.
   */
  lemma VerifiedThenNoActive(records: seq<OtpRecord>, email: string, purpose: string, code: string,
                             now: int, code2: string, later: int)
    requires forall i, j ::
               (0 <= i < |records| && 0 <= j < |records|
                && Matches(records[i], ActiveQuery(email, purpose)) && Matches(records[j], ActiveQuery(email, purpose)))
               ==> i == j
    requires VerifyStep(records, email, purpose, code, now).0.valid
    ensures var rs := VerifyStep(records, email, purpose, code, now).1;
            VerifyStep(rs, email, purpose, code2, later) == (VerifyOutcome(false, NoActiveOtp, None), rs)
  {
    var i := First(records, ActiveQuery(email, purpose)).value;
    var rs := VerifyStep(records, email, purpose, code, now).1;
    forall j | 0 <= j < |rs| ensures !Matches(rs[j], ActiveQuery(email, purpose)) {
      if j != i {
        assert rs[j] == records[j];
      }
    }
  }

  // ---------------------------------------------------------------------
  // resend_otp

  /** What `resend_otp` returns. */
  datatype ResendOutcome = ResendOutcome(success: bool, message: string)

  /** `resend_otp` at `now`: the outcome, the new table and the email it sends, if any. */
  function ResendStep(cfg: Config, records: seq<OtpRecord>, email: string, purpose: string, now: int,
                      code: string, emailSent: bool): (ResendOutcome, seq<OtpRecord>, Option<Mail>)
  {
    match First(records, ActiveQuery(email, purpose))
    case None => (ResendOutcome(false, NoActiveOtpToResend), records, None)
    case Some(i) =>
      var age := now - records[i].createdAt;
      if age < CooldownSeconds(cfg) then
        (ResendOutcome(false, PleaseWait(CooldownSeconds(cfg) - age)), records, None)
      else
        var (o, rs) := CreateStep(cfg, records, email, purpose, now, code, emailSent);
        match o
        case CooldownActive(_) => (ResendOutcome(false, ResendFailed), records, None)
        case Created(_, sent) =>
          (ResendOutcome(sent, if sent then OtpResent else SendFailed), rs, Some(Mail(email, code, purpose)))
  }

  /**
   * Resend fails, sends nothing and changes nothing unless the pair has an
   * active row at least as old as the cooldown; then it behaves as create,
   * and it succeeds exactly when create succeeded and the email went out.
   */
  lemma ResendEffect(cfg: Config, records: seq<OtpRecord>, email: string, purpose: string, now: int,
                     code: string, emailSent: bool)
    ensures var (ro, rs, mail) := ResendStep(cfg, records, email, purpose, now, code, emailSent);
            var f := First(records, ActiveQuery(email, purpose));
            var (co, crs) := CreateStep(cfg, records, email, purpose, now, code, emailSent);
            && (f.None? ==> ro == ResendOutcome(false, NoActiveOtpToResend) && rs == records && mail.None?)
            && (f.Some? && now - records[f.value].createdAt < CooldownSeconds(cfg) ==>
                  !ro.success && rs == records && mail.None?)
            && (f.Some? && now - records[f.value].createdAt >= CooldownSeconds(cfg) ==>
                  && (co.CooldownActive? ==> ro == ResendOutcome(false, ResendFailed) && rs == records && mail.None?)
                  && (co.Created? ==> rs == crs && mail == Some(Mail(email, code, purpose))
                                      && (ro.success <==> emailSent)))
            && (ro.success ==> ro.message == OtpResent && emailSent)
  {
  }

  lemma ResendKeepsAtMostOneLive(cfg: Config, records: seq<OtpRecord>, email: string, purpose: string, now: int,
                                 code: string, emailSent: bool)
    requires AtMostOneLive(records, now)
    ensures AtMostOneLive(ResendStep(cfg, records, email, purpose, now, code, emailSent).1, now)
  {
    CreateKeepsAtMostOneLive(cfg, records, email, purpose, now, code, emailSent);
  }

  lemma ResendKeepsAllOk(cfg: Config, records: seq<OtpRecord>, email: string, purpose: string, now: int,
                         code: string, emailSent: bool)
    requires AllOk(records)
    ensures AllOk(ResendStep(cfg, records, email, purpose, now, code, emailSent).1)
  {
    CreateKeepsAllOk(cfg, records, email, purpose, now, code, emailSent);
  }

  // ---------------------------------------------------------------------
  // get_otp_status

  /** `get_otp_status`'s answer; the two times are present only when there is an active row. */
  datatype OtpStatus = OtpStatus(hasActiveOtp: bool, isExpired: bool, attemptsRemaining: int,
                                 canResend: bool, expiresInSeconds: int,
                                 createdAt: Option<int>, expiresAt: Option<int>)

  const NoOtpStatus := OtpStatus(false, false, 0, true, 0, None, None)

  /**
   * `get_otp_status` at `now`, read off the pair's first active row: expired
   * exactly when `now` is past its expiry, the seconds left until that expiry
   * (0 once it has passed), the attempts left before its maximum (0 once it is
   * reached), and whether the resend cooldown has run out.
   */
  function Status(cfg: Config, records: seq<OtpRecord>, email: string, purpose: string, now: int): (st: OtpStatus)
    ensures st.hasActiveOtp <==> First(records, ActiveQuery(email, purpose)).Some?
    ensures !st.hasActiveOtp <==> forall j :: 0 <= j < |records| ==> !Matches(records[j], ActiveQuery(email, purpose))
    ensures !st.hasActiveOtp ==> st == NoOtpStatus
    ensures st.attemptsRemaining >= 0 && st.expiresInSeconds >= 0
    ensures st.hasActiveOtp ==>
              var r := records[First(records, ActiveQuery(email, purpose)).value];
              && st.createdAt == Some(r.createdAt) && st.expiresAt == Some(r.expiresAt)
              && (st.isExpired <==> now > r.expiresAt)
              && (st.expiresInSeconds > 0 <==> r.expiresAt > now)
              && (st.expiresInSeconds > 0 ==> now + st.expiresInSeconds == r.expiresAt)
              && (st.attemptsRemaining > 0 <==> r.attempts < r.maxAttempts)
              && (st.attemptsRemaining > 0 ==> r.attempts + st.attemptsRemaining == r.maxAttempts)
              && (st.canResend <==> now - r.createdAt >= CooldownSeconds(cfg))
    ensures st.isExpired ==> st.expiresInSeconds == 0
  {
    match First(records, ActiveQuery(email, purpose))
    case None => NoOtpStatus
    case Some(i) =>
      var r := records[i];
      OtpStatus(true, now > r.expiresAt, Max0(r.maxAttempts - r.attempts),
                now - r.createdAt >= CooldownSeconds(cfg), Max0(r.expiresAt - now),
                Some(r.createdAt), Some(r.expiresAt))
  }

  /** The cooldown refusal's message starts differently from every other message of resend. */
  lemma PleaseWaitDiffers(n: nat)
    ensures PleaseWait(n) != NoActiveOtpToResend && PleaseWait(n) != ResendFailed
    ensures PleaseWait(n) != OtpResent && PleaseWait(n) != SendFailed
  {
    assert PleaseWait(n)[0] == 'P';
    assert NoActiveOtpToResend[0] == 'N' && ResendFailed[0] == 'F' && OtpResent[0] == 'O' && SendFailed[0] == 'F';
  }

  /** The messages of a verify that counts an attempt differ from the two early exits (they end differently). */
  lemma CountedMessagesDiffer(n: nat)
    ensures InvalidCode(n) != OtpExpired && InvalidCode(n) != AttemptsExceeded
    ensures InvalidCodeExhausted != OtpExpired && InvalidCodeExhausted != AttemptsExceeded
    ensures OtpVerified != OtpExpired && OtpVerified != AttemptsExceeded
  {
    var s := InvalidCode(n);
    assert s[|s| - 1] == 'g';
    assert OtpExpired[|OtpExpired| - 1] == 'e' && AttemptsExceeded[|AttemptsExceeded| - 1] == 'P';
    assert InvalidCodeExhausted[|InvalidCodeExhausted| - 1] == 'd' && OtpVerified[|OtpVerified| - 1] == 'y';
  }

  /**
   * Status agrees with verify and resend. No active row is what both report
   * as missing. Verify reports expiry exactly when the status is expired; on
   * an unexpired row it reports exhaustion exactly when no attempts remain,
   * and otherwise counts one attempt. `can_resend` false is exactly resend's
   * cooldown refusal; `can_resend` true means resend hands over to create.
   */
  lemma StatusAgrees(cfg: Config, records: seq<OtpRecord>, email: string, purpose: string, now: int,
                     code: string, newCode: string, emailSent: bool)
    ensures var st := Status(cfg, records, email, purpose, now);
            var (vo, vrs) := VerifyStep(records, email, purpose, code, now);
            var ro := ResendStep(cfg, records, email, purpose, now, newCode, emailSent);
            var f := First(records, ActiveQuery(email, purpose));
            && (!st.hasActiveOtp ==> vo.message == NoActiveOtp && ro.0.message == NoActiveOtpToResend)
            && (st.hasActiveOtp ==> (vo.message == OtpExpired <==> st.isExpired))
            && (st.hasActiveOtp && !st.isExpired ==> (vo.message == AttemptsExceeded <==> st.attemptsRemaining == 0))
            && (st.hasActiveOtp && !st.isExpired && st.attemptsRemaining > 0 ==>
                  vrs[f.value].attempts == records[f.value].attempts + 1)
            && (st.hasActiveOtp ==>
                  (!st.canResend <==> exists n: nat :: ro == (ResendOutcome(false, PleaseWait(n)), records, None)))
            && (st.hasActiveOtp && st.canResend ==>
                  var (co, crs) := CreateStep(cfg, records, email, purpose, now, newCode, emailSent);
                  && (co.CooldownActive? ==> ro == (ResendOutcome(false, ResendFailed), records, None))
                  && (co.Created? ==> ro.1 == crs && ro.2 == Some(Mail(email, newCode, purpose))
                                      && (ro.0.success <==> emailSent)))
            && (st.hasActiveOtp && !st.isExpired ==> st.expiresInSeconds == st.expiresAt.value - now)
  {
    StatusAgreesVerify(cfg, records, email, purpose, now, code);
    StatusAgreesResend(cfg, records, email, purpose, now, newCode, emailSent);
  }

  /** The verify half of `StatusAgrees`, for a pair with an active row. */
  lemma StatusAgreesVerify(cfg: Config, records: seq<OtpRecord>, email: string, purpose: string, now: int, code: string)
    ensures var st := Status(cfg, records, email, purpose, now);
            var (vo, vrs) := VerifyStep(records, email, purpose, code, now);
            var f := First(records, ActiveQuery(email, purpose));
            && (st.hasActiveOtp ==> (vo.message == OtpExpired <==> st.isExpired))
            && (st.hasActiveOtp && !st.isExpired ==> (vo.message == AttemptsExceeded <==> st.attemptsRemaining == 0))
            && (st.hasActiveOtp && !st.isExpired && st.attemptsRemaining > 0 ==>
                  vrs[f.value].attempts == records[f.value].attempts + 1)
  {
    var f := First(records, ActiveQuery(email, purpose));
    if f.Some? {
      var r := records[f.value];
      CountedMessagesDiffer(if r.maxAttempts - (r.attempts + 1) > 0 then r.maxAttempts - (r.attempts + 1) else 0);
    }
  }

  /** The resend half of `StatusAgrees`, for a pair with an active row. */
  lemma StatusAgreesResend(cfg: Config, records: seq<OtpRecord>, email: string, purpose: string, now: int,
                           newCode: string, emailSent: bool)
    ensures var st := Status(cfg, records, email, purpose, now);
            var ro := ResendStep(cfg, records, email, purpose, now, newCode, emailSent);
            st.hasActiveOtp ==>
              (!st.canResend <==> exists n: nat :: ro == (ResendOutcome(false, PleaseWait(n)), records, None))
  {
    var f := First(records, ActiveQuery(email, purpose));
    if f.Some? {
      var r := records[f.value];
      var st := Status(cfg, records, email, purpose, now);
      var ro := ResendStep(cfg, records, email, purpose, now, newCode, emailSent);
      if st.canResend {
        forall n: nat ensures ro != (ResendOutcome(false, PleaseWait(n)), records, None) {
          PleaseWaitDiffers(n);
        }
      } else {
        var n: nat := CooldownSeconds(cfg) - (now - r.createdAt);
        assert ro == (ResendOutcome(false, PleaseWait(n)), records, None);
      }
    }
  }

  // ---------------------------------------------------------------------
  // cleanup_expired_otps

  /** The rows the 24-hour cleanup keeps: those whose expiry is not before `cutoff`. */
  function KeepRecent(records: seq<OtpRecord>, cutoff: int): (kept: seq<OtpRecord>)
    ensures |kept| <= |records|
    ensures forall j :: 0 <= j < |kept| ==> kept[j].expiresAt >= cutoff
    ensures forall r :: r in kept <==> r in records && r.expiresAt >= cutoff
  {
    if |records| == 0 then []
    else
      var rest := KeepRecent(records[1..], cutoff);
      assert forall r :: r in records <==> r == records[0] || r in records[1..];
      if records[0].expiresAt < cutoff then rest else [records[0]] + rest
  }

  /** Cleanup keeps each surviving row as often as it occurs, and no other. */
  lemma {:induction false} KeepRecentMultiset(records: seq<OtpRecord>, cutoff: int)
    ensures forall r :: multiset(KeepRecent(records, cutoff))[r] == if r.expiresAt >= cutoff then multiset(records)[r] else 0
  {
    if |records| > 0 {
      assert records == [records[0]] + records[1..];
      KeepRecentMultiset(records[1..], cutoff);
    }
  }

  /** Cleanup keeps the surviving rows in their original order: it distributes over concatenation. */
  lemma {:induction false} KeepRecentAppend(a: seq<OtpRecord>, b: seq<OtpRecord>, cutoff: int)
    ensures KeepRecent(a + b, cutoff) == KeepRecent(a, cutoff) + KeepRecent(b, cutoff)
  {
    if |a| > 0 {
      assert (a + b)[1..] == a[1..] + b;
      KeepRecentAppend(a[1..], b, cutoff);
    } else {
      assert a + b == b;
    }
  }

  /** The number of rows whose expiry is before `cutoff`. */
  function CountOlder(records: seq<OtpRecord>, cutoff: int): nat
  {
    if |records| == 0 then 0
    else (if records[0].expiresAt < cutoff then 1 else 0) + CountOlder(records[1..], cutoff)
  }

  /** Cleanup deletes exactly the counted rows. */
  lemma {:induction false} KeepRecentCount(records: seq<OtpRecord>, cutoff: int)
    ensures |KeepRecent(records, cutoff)| + CountOlder(records, cutoff) == |records|
  {
    if |records| > 0 {
      KeepRecentCount(records[1..], cutoff);
    }
  }

  /** Dropping the first row keeps the invariant. */
  lemma AtMostOneLiveTail(records: seq<OtpRecord>, now: int)
    requires |records| > 0 && AtMostOneLive(records, now)
    ensures AtMostOneLive(records[1..], now)
  {
    var rest := records[1..];
    forall i, j | 0 <= i < |rest| && 0 <= j < |rest| && i != j && Live(rest[i], now) && Live(rest[j], now)
      ensures !SamePair(rest[i], rest[j])
    {
      assert rest[i] == records[i + 1] && rest[j] == records[j + 1];
    }
  }

  /** Putting a row in front keeps the invariant when it clashes with no live row behind it. */
  lemma AtMostOneLiveCons(h: OtpRecord, k: seq<OtpRecord>, now: int)
    requires AtMostOneLive(k, now)
    requires forall j :: 0 <= j < |k| && Live(h, now) && Live(k[j], now) ==> !SamePair(h, k[j])
    ensures AtMostOneLive([h] + k, now)
  {
    var out := [h] + k;
    forall a, b | 0 <= a < |out| && 0 <= b < |out| && a != b && Live(out[a], now) && Live(out[b], now)
      ensures !SamePair(out[a], out[b])
    {
      if a > 0 && b > 0 {
        assert out[a] == k[a - 1] && out[b] == k[b - 1];
      } else if a == 0 {
        assert out[b] == k[b - 1];
      } else {
        assert out[a] == k[a - 1];
      }
    }
  }

  /** Deleting rows never makes a second row live. */
  lemma KeepRecentKeepsAllOk(records: seq<OtpRecord>, cutoff: int)
    requires AllOk(records)
    ensures AllOk(KeepRecent(records, cutoff))
  {
    var kept := KeepRecent(records, cutoff);
    forall i | 0 <= i < |kept| ensures RecordOk(kept[i]) {
      assert kept[i] in records;
    }
  }

  lemma {:induction false} KeepRecentKeepsAtMostOneLive(records: seq<OtpRecord>, cutoff: int, now: int)
    requires AtMostOneLive(records, now)
    ensures AtMostOneLive(KeepRecent(records, cutoff), now)
  {
    if |records| > 0 {
      var rest := records[1..];
      AtMostOneLiveTail(records, now);
      KeepRecentKeepsAtMostOneLive(rest, cutoff, now);
      var k := KeepRecent(rest, cutoff);
      if records[0].expiresAt >= cutoff {
        var h := records[0];
        forall j | 0 <= j < |k| && Live(h, now) && Live(k[j], now)
          ensures !SamePair(h, k[j])
        {
          assert k[j] in rest;
          var m :| 0 <= m < |rest| && rest[m] == k[j];
          assert records[m + 1] == k[j];
        }
        AtMostOneLiveCons(h, k, now);
      }
    }
  }

  // ---------------------------------------------------------------------
  // invalidate_user_otps

  /** The filter of `invalidate_user_otps`: the email, active, and the purpose only when it is given and non-empty. */
  predicate InvalidateTarget(r: OtpRecord, email: string, purpose: Option<string>)
  {
    r.email == email && r.isActive && (purpose.Some? && purpose.value != "" ==> r.purpose == purpose.value)
  }

  function Invalidated(records: seq<OtpRecord>, email: string, purpose: Option<string>): seq<OtpRecord>
  {
    seq(|records|, i requires 0 <= i < |records| =>
      if InvalidateTarget(records[i], email, purpose) then records[i].(isActive := false) else records[i])
  }

  /** The number of rows the filter selects, counted from the front. */
  function CountTargets(records: seq<OtpRecord>, email: string, purpose: Option<string>): nat
  {
    if |records| == 0 then 0
    else CountTargets(records[..|records| - 1], email, purpose)
         + (if InvalidateTarget(records[|records| - 1], email, purpose) then 1 else 0)
  }

  /**
   * Invalidate deactivates exactly the selected rows: afterwards none is
   * selected, every other row is as it was, and the table only weakens.
   */
  lemma InvalidateEffect(records: seq<OtpRecord>, email: string, purpose: Option<string>)
    ensures var rs := Invalidated(records, email, purpose);
            && Weakens(records, rs)
            && (forall j :: 0 <= j < |rs| ==> !InvalidateTarget(rs[j], email, purpose))
            && (forall j :: 0 <= j < |rs| ==> (rs[j] != records[j] <==> InvalidateTarget(records[j], email, purpose)))
            && (forall j :: 0 <= j < |rs| && InvalidateTarget(records[j], email, purpose) ==>
                  rs[j] == records[j].(isActive := false))
            && (AllOk(records) ==> AllOk(rs))
  {
  }

  lemma InvalidateKeepsAtMostOneLive(records: seq<OtpRecord>, email: string, purpose: Option<string>, now: int)
    requires AtMostOneLive(records, now)
    ensures AtMostOneLive(Invalidated(records, email, purpose), now)
  {
    InvalidateEffect(records, email, purpose);
    WeakeningKeepsAtMostOneLive(records, Invalidated(records, email, purpose), now);
  }

  // ---------------------------------------------------------------------
  // get_service_stats

  /** `get_service_stats`'s answer. */
  datatype ServiceStats = ServiceStats(activeOtps: nat, expiredOtps: nat, verifiedOtps: nat, totalOtps: nat,
                                       otpLength: nat, expiryMinutes: int, maxAttempts: int,
                                       resendCooldownMinutes: int)

  function CountLive(records: seq<OtpRecord>, now: int): nat
  {
    if |records| == 0 then 0 else (if Live(records[0], now) then 1 else 0) + CountLive(records[1..], now)
  }

  function CountExpired(records: seq<OtpRecord>, now: int): nat
  {
    if |records| == 0 then 0 else (if records[0].expiresAt <= now then 1 else 0) + CountExpired(records[1..], now)
  }

  function CountVerified(records: seq<OtpRecord>): nat
  {
    if |records| == 0 then 0 else (if records[0].isVerified then 1 else 0) + CountVerified(records[1..])
  }

  /** A row is never counted both as active and as expired, so the two counts fit in the total. */
  lemma {:induction false} StatsPartition(records: seq<OtpRecord>, now: int)
    ensures CountLive(records, now) + CountExpired(records, now) <= |records|
    ensures CountVerified(records) <= |records|
  {
    if |records| > 0 {
      StatsPartition(records[1..], now);
    }
  }

  // ---------------------------------------------------------------------
  // Scenarios

  /**
   * An expired row that was never verified stays active, so it can sit
   * beside a newer live row of the same pair: only "at most one live row per
   * pair" is kept, not "at most one active row". Verify and resend pick the
   * stale row first; verify then answers "expired" even for the new code, and
   * resend hands on to create, which meets the new row's cooldown and fails.
   */
  lemma StaleActiveRowShadowsNewCode()
    ensures var cfg := DefaultConfig;
            var rs1 := CreateStep(cfg, [], "a@x", "email_verification", 0, "111111", true).1;
            var rs2 := CreateStep(cfg, rs1, "a@x", "email_verification", 700, "222222", true).1;
            && |rs2| == 2
            && rs2[0].isActive && rs2[1].isActive
            && AtMostOneLive(rs2, 700)
            && VerifyStep(rs2, "a@x", "email_verification", "222222", 710).0.message == OtpExpired
            && ResendStep(cfg, rs2, "a@x", "email_verification", 710, "333333", true).0
                 == ResendOutcome(false, ResendFailed)
  {
    var cfg := DefaultConfig;
    var rs1 := CreateStep(cfg, [], "a@x", "email_verification", 0, "111111", true).1;
    assert First(rs1, LiveQuery("a@x", "email_verification", 700)).None?;
    var rs2 := CreateStep(cfg, rs1, "a@x", "email_verification", 700, "222222", true).1;
    assert First(rs2, ActiveQuery("a@x", "email_verification")) == Some(0);
    assert !Matches(rs2[0], LiveQuery("a@x", "email_verification", 710));
    assert Matches(rs2[1], LiveQuery("a@x", "email_verification", 710));
    assert First(rs2, LiveQuery("a@x", "email_verification", 710)) == Some(1);
  }

  /**
   * The stale row shadows the new code only once: the verify that reports it
   * expired closes it, and the next verify reaches the new code.
   */
  lemma SecondVerifyReachesNewCode()
    ensures var cfg := DefaultConfig;
            var rs1 := CreateStep(cfg, [], "a@x", "email_verification", 0, "111111", true).1;
            var rs2 := CreateStep(cfg, rs1, "a@x", "email_verification", 700, "222222", true).1;
            var (vo1, vrs1) := VerifyStep(rs2, "a@x", "email_verification", "222222", 710);
            var (vo2, vrs2) := VerifyStep(vrs1, "a@x", "email_verification", "222222", 720);
            && vo1.message == OtpExpired && !vrs1[0].isActive && vrs1[1] == rs2[1]
            && vo2.valid && vo2.message == OtpVerified
            && !vrs2[1].isActive && vrs2[1].isVerified
  {
    var cfg := DefaultConfig;
    var rs1 := CreateStep(cfg, [], "a@x", "email_verification", 0, "111111", true).1;
    assert First(rs1, LiveQuery("a@x", "email_verification", 700)).None?;
    var rs2 := CreateStep(cfg, rs1, "a@x", "email_verification", 700, "222222", true).1;
    assert First(rs2, ActiveQuery("a@x", "email_verification")) == Some(0);
    var vrs1 := VerifyStep(rs2, "a@x", "email_verification", "222222", 710).1;
    assert |vrs1| == 2 && vrs1[1] == rs2[1];
    assert !Matches(vrs1[0], ActiveQuery("a@x", "email_verification"));
    assert Matches(vrs1[1], ActiveQuery("a@x", "email_verification"));
    assert First(vrs1, ActiveQuery("a@x", "email_verification")) == Some(1);
  }

  /**
   * Once the new row's cooldown has run out, resend past the stale row
   * succeeds: create closes the new row, which it finds live, and appends a
   * third. The stale row stays active in front of both.
   */
  lemma StaleActiveRowOutlivesResend()
    ensures var cfg := DefaultConfig;
            var rs1 := CreateStep(cfg, [], "a@x", "email_verification", 0, "111111", true).1;
            var rs2 := CreateStep(cfg, rs1, "a@x", "email_verification", 700, "222222", true).1;
            var (ro, rs3, mail) := ResendStep(cfg, rs2, "a@x", "email_verification", 900, "333333", true);
            && ro == ResendOutcome(true, OtpResent)
            && mail == Some(Mail("a@x", "333333", "email_verification"))
            && |rs3| == 3
            && rs3[0].isActive && !rs3[1].isActive && rs3[2].isActive
            && VerifyStep(rs3, "a@x", "email_verification", "333333", 910).0.message == OtpExpired
  {
    var cfg := DefaultConfig;
    var rs1 := CreateStep(cfg, [], "a@x", "email_verification", 0, "111111", true).1;
    assert First(rs1, LiveQuery("a@x", "email_verification", 700)).None?;
    var rs2 := CreateStep(cfg, rs1, "a@x", "email_verification", 700, "222222", true).1;
    assert First(rs2, ActiveQuery("a@x", "email_verification")) == Some(0);
    assert !Matches(rs2[0], LiveQuery("a@x", "email_verification", 900));
    assert Matches(rs2[1], LiveQuery("a@x", "email_verification", 900));
    assert First(rs2, LiveQuery("a@x", "email_verification", 900)) == Some(1);
    var rs3 := ResendStep(cfg, rs2, "a@x", "email_verification", 900, "333333", true).1;
    assert First(rs3, ActiveQuery("a@x", "email_verification")) == Some(0);
  }

  /**
   * The instant of expiry counts twice: create treats a row as live only
   * strictly before its expiry, verify rejects it only strictly after. A code
   * issued at 0 expires at 600; a create at 600 issues a second code without
   * closing the first, and the first code still verifies at 600.
   */
  lemma ExpiryInstantStillVerifies()
    ensures var cfg := DefaultConfig;
            var rs1 := CreateStep(cfg, [], "a@x", "email_verification", 0, "111111", true).1;
            var (o2, rs2) := CreateStep(cfg, rs1, "a@x", "email_verification", 600, "222222", true);
            var (vo, vrs) := VerifyStep(rs2, "a@x", "email_verification", "111111", 600);
            && rs1[0].expiresAt == 600
            && o2.Created? && |rs2| == 2 && rs2[0] == rs1[0]
            && rs2[0].isActive && rs2[1].isActive
            && vo.valid && vo.message == OtpVerified
            && vrs[0].isVerified && !vrs[0].isActive && vrs[1] == rs2[1]
            && VerifyStep(vrs, "a@x", "email_verification", "222222", 600).0.valid
  {
    var cfg := DefaultConfig;
    var rs1 := CreateStep(cfg, [], "a@x", "email_verification", 0, "111111", true).1;
    assert First(rs1, LiveQuery("a@x", "email_verification", 600)).None?;
    var rs2 := CreateStep(cfg, rs1, "a@x", "email_verification", 600, "222222", true).1;
    assert First(rs2, ActiveQuery("a@x", "email_verification")) == Some(0);
    var vrs := VerifyStep(rs2, "a@x", "email_verification", "111111", 600).1;
    assert |vrs| == 2 && vrs[1] == rs2[1];
    assert !Matches(vrs[0], ActiveQuery("a@x", "email_verification"));
    assert Matches(vrs[1], ActiveQuery("a@x", "email_verification"));
    assert First(vrs, ActiveQuery("a@x", "email_verification")) == Some(1);
  }

  /**
   * Exhaustion with three allowed attempts: two wrong codes name 2 and then 1
   * remaining attempts, the third closes the row, and a fourth verify finds no
   * active code, even with the right one.
   */
  lemma ThreeWrongCodes(email: string, purpose: string)
    ensures var r := NewRecord(DefaultConfig, email, purpose, "123456", 0);
            var (o1, rs1) := VerifyStep([r], email, purpose, "000000", 10);
            var (o2, rs2) := VerifyStep(rs1, email, purpose, "000000", 20);
            var (o3, rs3) := VerifyStep(rs2, email, purpose, "000000", 30);
            var (o4, rs4) := VerifyStep(rs3, email, purpose, "123456", 40);
            && o1.message == InvalidCode(2)
            && o2.message == InvalidCode(1)
            && o3.message == InvalidCodeExhausted
            && o4 == VerifyOutcome(false, NoActiveOtp, None)
            && rs4 == rs3 && rs3[0].attempts == 3
  {
    var r := NewRecord(DefaultConfig, email, purpose, "123456", 0);
    var q := ActiveQuery(email, purpose);
    var rs1 := VerifyStep([r], email, purpose, "000000", 10).1;
    assert First(rs1, q) == Some(0);
    var rs2 := VerifyStep(rs1, email, purpose, "000000", 20).1;
    assert First(rs2, q) == Some(0);
    var rs3 := VerifyStep(rs2, email, purpose, "000000", 30).1;
    assert First(rs3, q).None?;
  }

  // ---------------------------------------------------------------------
  // The service

  class OtpService {
    const config: Config
    /** The verification table, in insertion order. */
    var records: seq<OtpRecord>
    /** Every `send_otp_email` call the service has made. */
    var outbox: seq<Mail>

    /**
     * The table's invariant at time `now`: every row well formed and at most
     * one live row per pair. The constructor establishes it at every time and
     * every mutating method keeps it.
     */
    ghost predicate Valid(now: int)
      reads this
    {
      AllOk(records) && AtMostOneLive(records, now)
    }

    constructor (config: Config)
      ensures this.config == config && records == [] && outbox == []
      ensures forall t :: Valid(t)
    {
      this.config := config;
      records := [];
      outbox := [];
    }

    /**
     * `create_otp_verification`: the code comes from `draws`, one random draw
     * per digit, and `emailSent` is the email service's answer.
     */
    method CreateOtpVerification(email: string, purpose: string, now: int, draws: seq<int>, emailSent: bool)
      returns (outcome: CreateOutcome)
      requires |draws| == config.otpLength
      modifies this
      ensures (outcome, records) == CreateStep(config, old(records), email, purpose, now, GenerateOtp(draws), emailSent)
      ensures outbox == old(outbox) + (if outcome.Created? then [Mail(email, outcome.code, purpose)] else [])
      ensures outcome.Created? ==> |outcome.code| == config.otpLength && AllDigits(outcome.code)
      ensures old(Valid(now)) ==> Valid(now)
    {
      if Valid(now) {
        CreateKeepsAllOk(config, records, email, purpose, now, GenerateOtp(draws), emailSent);
        CreateKeepsAtMostOneLive(config, records, email, purpose, now, GenerateOtp(draws), emailSent);
      }
      var found := First(records, LiveQuery(email, purpose, now));
      if found.Some? {
        var i := found.value;
        var age := now - records[i].createdAt;
        if age < config.cooldownMinutes * 60 {
          return CooldownActive(config.cooldownMinutes * 60 - age);
        }
        records := records[i := records[i].(isActive := false)];
      }
      var code := GenerateOtp(draws);
      records := records + [NewRecord(config, email, purpose, code, now)];
      outbox := outbox + [Mail(email, code, purpose)];
      return Created(code, emailSent);
    }

    /** `verify_otp` of `code` at `now`. */
    method VerifyOtp(email: string, purpose: string, code: string, now: int) returns (outcome: VerifyOutcome)
      modifies this
      ensures (outcome, records) == VerifyStep(old(records), email, purpose, code, now)
      ensures outbox == old(outbox)
      ensures old(Valid(now)) ==> Valid(now)
    {
      if Valid(now) {
        VerifyKeepsAllOk(records, email, purpose, code, now);
        VerifyKeepsAtMostOneLive(records, email, purpose, code, now, now);
      }
      var found := First(records, ActiveQuery(email, purpose));
      if found.None? {
        return VerifyOutcome(false, NoActiveOtp, None);
      }
      var i := found.value;
      if now > records[i].expiresAt {
        records := records[i := records[i].(isActive := false)];
        return VerifyOutcome(false, OtpExpired, Some(records[i]));
      }
      if records[i].attempts >= records[i].maxAttempts {
        records := records[i := records[i].(isActive := false)];
        return VerifyOutcome(false, AttemptsExceeded, Some(records[i]));
      }
      ghost var r1 := old(records)[i].(attempts := old(records)[i].attempts + 1);
      records := records[i := records[i].(attempts := records[i].attempts + 1)];
      assert records == old(records)[i := r1];
      if records[i].code != code {
        var remaining := records[i].maxAttempts - records[i].attempts;
        if remaining > 0 {
          return VerifyOutcome(false, InvalidCode(remaining), Some(records[i]));
        }
        records := records[i := records[i].(isActive := false)];
        assert records == old(records)[i := r1.(isActive := false)];
        return VerifyOutcome(false, InvalidCodeExhausted, Some(records[i]));
      }
      records := records[i := records[i].(isVerified := true, verifiedAt := Some(now), isActive := false)];
      assert records == old(records)[i := r1.(isVerified := true, verifiedAt := Some(now), isActive := false)];
      return VerifyOutcome(true, OtpVerified, Some(records[i]));
    }

    /** `resend_otp` at `now`, with the draws and the email answer for the code it may create. */
    method ResendOtp(email: string, purpose: string, now: int, draws: seq<int>, emailSent: bool)
      returns (outcome: ResendOutcome)
      requires |draws| == config.otpLength
      modifies this
      ensures var (o, rs, mail) := ResendStep(config, old(records), email, purpose, now, GenerateOtp(draws), emailSent);
              outcome == o && records == rs
              && outbox == old(outbox) + (if mail.Some? then [mail.value] else [])
      ensures old(Valid(now)) ==> Valid(now)
    {
      if Valid(now) {
        ResendKeepsAllOk(config, records, email, purpose, now, GenerateOtp(draws), emailSent);
        ResendKeepsAtMostOneLive(config, records, email, purpose, now, GenerateOtp(draws), emailSent);
      }
      var found := First(records, ActiveQuery(email, purpose));
      if found.None? {
        return ResendOutcome(false, NoActiveOtpToResend);
      }
      var age := now - records[found.value].createdAt;
      if age < config.cooldownMinutes * 60 {
        return ResendOutcome(false, PleaseWait(config.cooldownMinutes * 60 - age));
      }
      var created := CreateOtpVerification(email, purpose, now, draws, emailSent);
      match created {
        case CooldownActive(_) =>
          return ResendOutcome(false, ResendFailed);
        case Created(_, sent) =>
          return ResendOutcome(sent, if sent then OtpResent else SendFailed);
      }
    }

    /** `get_otp_status` at `now`; it changes nothing. */
    method GetOtpStatus(email: string, purpose: string, now: int) returns (st: OtpStatus)
      ensures st == Status(config, records, email, purpose, now)
    {
      var found := First(records, ActiveQuery(email, purpose));
      if found.None? {
        return NoOtpStatus;
      }
      var r := records[found.value];
      var expiresIn := if r.expiresAt - now > 0 then r.expiresAt - now else 0;
      var remaining := if r.maxAttempts - r.attempts > 0 then r.maxAttempts - r.attempts else 0;
      st := OtpStatus(true, now > r.expiresAt, remaining, now - r.createdAt >= config.cooldownMinutes * 60,
                      expiresIn, Some(r.createdAt), Some(r.expiresAt));
    }

    /** `cleanup_expired_otps` at `now`: deletes every row that expired more than 24 hours ago. */
    method CleanupExpiredOtps(now: int) returns (deleted: nat)
      modifies this
      ensures !config.cleanupEnabled ==> deleted == 0 && records == old(records)
      ensures config.cleanupEnabled ==>
                records == KeepRecent(old(records), now - RetentionSeconds)
                && deleted == CountOlder(old(records), now - RetentionSeconds)
      ensures outbox == old(outbox)
      ensures old(Valid(now)) ==> Valid(now)
    {
      if Valid(now) {
        KeepRecentKeepsAllOk(records, now - RetentionSeconds);
        KeepRecentKeepsAtMostOneLive(records, now - RetentionSeconds, now);
      }
      if !config.cleanupEnabled {
        return 0;
      }
      var cutoff := now - RetentionSeconds;
      KeepRecentCount(records, cutoff);
      deleted := CountOlder(records, cutoff);
      records := KeepRecent(records, cutoff);
    }

    /** `invalidate_user_otps`: deactivates the selected rows and returns how many there were. */
    method InvalidateUserOtps(email: string, purpose: Option<string>) returns (count: nat)
      modifies this
      ensures records == Invalidated(old(records), email, purpose)
      ensures count == CountTargets(old(records), email, purpose)
      ensures outbox == old(outbox)
      ensures forall t :: old(Valid(t)) ==> Valid(t)
    {
      forall t | Valid(t) ensures AllOk(Invalidated(records, email, purpose)) && AtMostOneLive(Invalidated(records, email, purpose), t) {
        InvalidateEffect(records, email, purpose);
        InvalidateKeepsAtMostOneLive(records, email, purpose, t);
      }
      count := 0;
      for i := 0 to |records|
        invariant |records| == |old(records)|
        invariant outbox == old(outbox)
        invariant forall j :: 0 <= j < i ==> records[j] == Invalidated(old(records), email, purpose)[j]
        invariant forall j :: i <= j < |records| ==> records[j] == old(records)[j]
        invariant count == CountTargets(old(records)[..i], email, purpose)
      {
        assert old(records)[..i + 1][..i] == old(records)[..i];
        if InvalidateTarget(records[i], email, purpose) {
          records := records[i := records[i].(isActive := false)];
          count := count + 1;
        }
      }
      assert old(records)[..|old(records)|] == old(records);
    }

    /** `get_service_stats` at `now`. */
    function GetServiceStats(now: int): (st: ServiceStats)
      reads this
      ensures st.activeOtps + st.expiredOtps <= st.totalOtps
      ensures st.verifiedOtps <= st.totalOtps
      ensures st.totalOtps == |records|
      ensures st.otpLength == config.otpLength && st.expiryMinutes == config.expiryMinutes
              && st.maxAttempts == config.maxAttempts && st.resendCooldownMinutes == config.cooldownMinutes
    {
      StatsPartition(records, now);
      ServiceStats(CountLive(records, now), CountExpired(records, now), CountVerified(records), |records|,
                   config.otpLength, config.expiryMinutes, config.maxAttempts, config.cooldownMinutes)
    }
  }
}
