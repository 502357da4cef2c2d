/**
 One-time codes: `verifyOtp` and `resendOtp` over the table of codes. Each
 operation is one step.
 */
module Otp {
  import opened Text

  const ATTEMPT_LIMIT := 5

  datatype OtpToken = OtpToken(
    emailHash: Text, otpHash: Text, expiresAt: int, used: bool, attempts: nat, createdAt: int)

  predicate IsLive(t: OtpToken, email: Text, now: int) {
    t.emailHash == email && !t.used && t.expiresAt > now
  }

  /** What `findLatestOtpToken` may return; rows created at the same moment tie. */
  ghost predicate IsLatest(ts: seq<OtpToken>, email: Text, now: int, found: Option<nat>) {
    match found
    case None => forall j :: 0 <= j < |ts| ==> !IsLive(ts[j], email, now)
    case Some(i) =>
      && i < |ts| && IsLive(ts[i], email, now)
      && forall j :: 0 <= j < |ts| && IsLive(ts[j], email, now) ==> ts[j].createdAt <= ts[i].createdAt
  }

  datatype Outcome = Invalid | TooManyAttempts | Mismatch | Accepted

  function OutcomeOf(ts: seq<OtpToken>, found: Option<nat>, otpHash: Text): Outcome
    requires found.Some? ==> found.value < |ts|
  {
    if found.None? then Invalid
    else if ts[found.value].attempts >= ATTEMPT_LIMIT then TooManyAttempts
    else if ts[found.value].otpHash != otpHash then Mismatch
    else Accepted
  }

  function AfterVerify(ts: seq<OtpToken>, found: Option<nat>, otpHash: Text): seq<OtpToken>
    requires found.Some? ==> found.value < |ts|
  {
    match OutcomeOf(ts, found, otpHash)
    case Mismatch => ts[found.value := ts[found.value].(attempts := ts[found.value].attempts + 1)]
    case Accepted => ts[found.value := ts[found.value].(used := true)]
    case _ => ts
  }

  function NewToken(email: Text, otpHash: Text, expiresAt: int, now: int): OtpToken {
    OtpToken(email, otpHash, expiresAt, false, 0, now)
  }

  function AfterResend(ts: seq<OtpToken>, found: Option<nat>, fresh_: OtpToken): seq<OtpToken>
    requires found.Some? ==> found.value < |ts|
  {
    match found
    case None => ts
    case Some(i) => ts[i := ts[i].(used := true)] + [fresh_]
  }

  class OtpStore {
    var tokens: seq<OtpToken>

    constructor ()
      ensures tokens == []
    {
      tokens := [];
    }

    method FindLatestOtpToken(email: Text, now: int) returns (found: Option<nat>)
      ensures IsLatest(tokens, email, now, found)
    {
      found := None;
      for j := 0 to |tokens|
        invariant found.Some? ==> found.value < j
        invariant IsLatest(tokens[..j], email, now, found)
      {
        if IsLive(tokens[j], email, now) && (found.None? || tokens[found.value].createdAt <= tokens[j].createdAt) {
          found := Some(j);
        }
        assert tokens[..j + 1] == tokens[..j] + [tokens[j]];
      }
      assert tokens[..|tokens|] == tokens;
    }

    method InsertOtpToken(email: Text, otpHash: Text, expiresAt: int, now: int)
      modifies this
      ensures tokens == old(tokens) + [NewToken(email, otpHash, expiresAt, now)]
    {
      tokens := tokens + [OtpToken(email, otpHash, expiresAt, false, 0, now)];
    }

    /** The lookup, the limit, the comparison and its consequence for the row. */
    method VerifyOtp(email: Text, otpHash: Text, now: int) returns (outcome: Outcome, found: Option<nat>)
      modifies this
      ensures IsLatest(old(tokens), email, now, found)
      ensures outcome == OutcomeOf(old(tokens), found, otpHash)
      ensures tokens == AfterVerify(old(tokens), found, otpHash)
    {
      found := FindLatestOtpToken(email, now);
      if found.None? {
        return Invalid, found;
      }
      var token := tokens[found.value];
      if token.attempts >= ATTEMPT_LIMIT {
        return TooManyAttempts, found;
      }
      if token.otpHash != otpHash {
        tokens := tokens[found.value := token.(attempts := token.attempts + 1)];
        return Mismatch, found;
      }
      tokens := tokens[found.value := token.(used := true)];
      outcome := Accepted;
    }

    method ResendOtp(email: Text, otpHash: Text, expiresAt: int, now: int) returns (found: Option<nat>)
      modifies this
      ensures IsLatest(old(tokens), email, now, found)
      ensures tokens == AfterResend(old(tokens), found, NewToken(email, otpHash, expiresAt, now))
    {
      found := FindLatestOtpToken(email, now);
      if found.Some? {
        tokens := tokens[found.value := tokens[found.value].(used := true)];
        InsertOtpToken(email, otpHash, expiresAt, now);
      }
    }
  }

  // ---------------------------------------------------------------------------
  // Runs
  // ---------------------------------------------------------------------------

  datatype Step =
    /** A login issues a code. */
    | Issue(token: OtpToken)
    /** `resendOtp`, which found the given row and drew a code for the same e-mail. */
    | Resend(found: Option<nat>, token: OtpToken, now: int)
    /** `verifyOtp`, which found the given row; `session` says whether an accepted code leads to a session. */
    | Verify(email: Text, found: Option<nat>, otpHash: Text, now: int, session: bool)

  /** How often each code was compared, accepted and turned into a session. */
  datatype Use = Use(compared: nat, accepted: nat, sessions: nat)

  datatype Store = Store(tokens: seq<OtpToken>, uses: seq<Use>)

  predicate IsFresh(t: OtpToken) {
    !t.used && t.attempts == 0
  }

  ghost predicate CanStep(s: Store, step: Step) {
    match step
    case Issue(t) => IsFresh(t)
    case Resend(found, t, now) => IsFresh(t) && IsLatest(s.tokens, t.emailHash, now, found)
    case Verify(email, found, _, now, _) => IsLatest(s.tokens, email, now, found)
  }

  function UseAfter(u: Use, outcome: Outcome, session: bool): Use {
    match outcome
    case Mismatch => u.(compared := u.compared + 1)
    case Accepted =>
      u.(compared := u.compared + 1, accepted := u.accepted + 1,
         sessions := if session then u.sessions + 1 else u.sessions)
    case _ => u
  }

  ghost function Next(s: Store, step: Step): Store
    requires CanStep(s, step) && |s.uses| == |s.tokens|
  {
    match step
    case Issue(t) => Store(s.tokens + [t], s.uses + [Use(0, 0, 0)])
    case Resend(found, t, _) =>
      Store(AfterResend(s.tokens, found, t), if found.Some? then s.uses + [Use(0, 0, 0)] else s.uses)
    case Verify(_, found, otpHash, _, session) =>
      Store(AfterVerify(s.tokens, found, otpHash),
            if found.None? then s.uses
            else s.uses[found.value := UseAfter(s.uses[found.value], OutcomeOf(s.tokens, found, otpHash), session)])
  }

  /** Comparisons are the failed ones, counted on the row, and at most one that was accepted. */
  predicate UseOk(t: OtpToken, u: Use) {
    && u.compared == t.attempts + u.accepted
    && u.compared <= 5
    && u.sessions <= u.accepted <= 1
    && (u.accepted == 1 ==> t.used)
  }

  ghost predicate Inv(s: Store) {
    |s.uses| == |s.tokens| && forall i :: 0 <= i < |s.tokens| ==> UseOk(s.tokens[i], s.uses[i])
  }

  lemma StepKeepsInv(s: Store, step: Step)
    requires Inv(s) && CanStep(s, step)
    ensures Inv(Next(s, step))
  {
  }

  /** A run of the table from empty. */
  ghost predicate IsRun(states: seq<Store>, steps: seq<Step>) {
    && |states| == |steps| + 1
    && states[0] == Store([], [])
    && forall i :: 0 <= i < |steps| ==>
         && |states[i].uses| == |states[i].tokens| && CanStep(states[i], steps[i])
         && states[i + 1] == Next(states[i], steps[i])
  }

  lemma {:induction false} RunKeepsInv(states: seq<Store>, steps: seq<Step>, i: nat)
    requires IsRun(states, steps) && i < |states|
    ensures Inv(states[i])
  {
    if i > 0 {
      RunKeepsInv(states, steps, i - 1);
      assert states[i - 1 + 1] == Next(states[i - 1], steps[i - 1]);
      StepKeepsInv(states[i - 1], steps[i - 1]);
    }
  }

  // ---------------------------------------------------------------------------
  // Which code is accepted
  // ---------------------------------------------------------------------------

  /** The step presents `hash` for the code `k`, its e-mail's newest that is unused and not yet expired. */
  predicate Presents(ts: seq<OtpToken>, step: Step, k: nat) {
    && step.Verify? && k < |ts|
    && ts[k].emailHash == step.email && !ts[k].used && step.now < ts[k].expiresAt
    && forall j ::
         0 <= j < |ts| && j != k && ts[j].emailHash == step.email && !ts[j].used && step.now < ts[j].expiresAt ==>
           ts[j].createdAt <= ts[k].createdAt
  }

  /** No other code of the e-mail ties with `k`. */
  predicate IsNewest(ts: seq<OtpToken>, k: nat) {
    k < |ts|
    && forall j :: 0 <= j < |ts| && j != k && ts[j].emailHash == ts[k].emailHash ==> ts[j].createdAt != ts[k].createdAt
  }

  lemma StepAccepts(s: Store, step: Step, k: nat)
    requires CanStep(s, step) && |s.uses| == |s.tokens| && k < |s.tokens|
    ensures k < |Next(s, step).uses|
    ensures Next(s, step).uses[k].sessions ==
            s.uses[k].sessions + (if Next(s, step).uses[k].accepted > s.uses[k].accepted && step.session then 1 else 0)
    ensures Next(s, step).uses[k].accepted > s.uses[k].accepted ==>
              Presents(s.tokens, step, k) && step.otpHash == s.tokens[k].otpHash && s.tokens[k].attempts < 5
    ensures (&& Presents(s.tokens, step, k) && IsNewest(s.tokens, k)
             && step.otpHash == s.tokens[k].otpHash && s.tokens[k].attempts < 5) ==>
              Next(s, step).uses[k].accepted == s.uses[k].accepted + 1 && Next(s, step).tokens[k].used
  {
  }

  /** A mismatch is counted exactly when the newest live code, with room left, is presented another hash. */
  lemma StepCounts(s: Store, step: Step, k: nat)
    requires CanStep(s, step) && |s.uses| == |s.tokens| && k < |s.tokens|
    ensures k < |Next(s, step).tokens|
    ensures var before, after := s.tokens[k], Next(s, step).tokens[k];
            && after.attempts in {before.attempts, before.attempts + 1}
            && (after.attempts > before.attempts ==>
                  Presents(s.tokens, step, k) && step.otpHash != before.otpHash && before.attempts < 5)
            && ((&& Presents(s.tokens, step, k) && IsNewest(s.tokens, k)
                 && step.otpHash != before.otpHash && before.attempts < 5) ==>
                  after.attempts == before.attempts + 1)
  {
  }

  /** The four answers: no live code, five wrong hashes already, another hash, the right one. */
  lemma AnswerMeaning(ts: seq<OtpToken>, email: Text, now: int, found: Option<nat>, hash: Text)
    requires IsLatest(ts, email, now, found)
    ensures var answer := OutcomeOf(ts, found, hash);
            && (answer == Invalid <==>
                  !exists j :: 0 <= j < |ts| && ts[j].emailHash == email && !ts[j].used && now < ts[j].expiresAt)
            && (found.Some? ==>
                  && (answer == TooManyAttempts <==> ts[found.value].attempts >= 5)
                  && (answer == Mismatch <==> ts[found.value].attempts < 5 && hash != ts[found.value].otpHash)
                  && (answer == Accepted <==> ts[found.value].attempts < 5 && hash == ts[found.value].otpHash))
  {
  }

  /** What a code was issued with never changes. */
  predicate SameCode(a: OtpToken, b: OtpToken) {
    a.emailHash == b.emailHash && a.otpHash == b.otpHash && a.expiresAt == b.expiresAt && a.createdAt == b.createdAt
  }

  lemma StepKeepsCodes(s: Store, step: Step)
    requires CanStep(s, step) && |s.uses| == |s.tokens|
    ensures |s.tokens| <= |Next(s, step).tokens| == |Next(s, step).uses|
    ensures forall k :: 0 <= k < |s.tokens| ==> SameCode(s.tokens[k], Next(s, step).tokens[k])
  {
  }

  lemma {:induction false} RunKeepsCodes(states: seq<Store>, steps: seq<Step>, i: nat, j: nat)
    requires IsRun(states, steps) && i <= j < |states|
    ensures |states[i].tokens| <= |states[j].tokens|
    ensures forall k :: 0 <= k < |states[i].tokens| ==> SameCode(states[i].tokens[k], states[j].tokens[k])
    decreases j
  {
    if i < j {
      RunKeepsCodes(states, steps, i, j - 1);
      assert states[j - 1 + 1] == Next(states[j - 1], steps[j - 1]);
      StepKeepsCodes(states[j - 1], steps[j - 1]);
    }
  }

  /**
   A code is accepted only where the hash it was issued with is presented for
   its e-mail before its expiry, it being unused, the newest such code, and
   presented a wrong hash fewer than five times; and there it is accepted,
   unless another code of the e-mail was created at the same moment.
   */
  lemma AcceptedRightly(states: seq<Store>, steps: seq<Step>, h: nat, i: nat, k: nat)
    requires IsRun(states, steps) && h <= i < |steps| && k < |states[h].tokens|
    ensures k < |states[i].tokens| && |states[i].uses| == |states[i].tokens| && k < |states[i + 1].uses|
    ensures var issued, now := states[h].tokens[k], states[i].tokens[k];
            && SameCode(issued, now)
            && (states[i + 1].uses[k].sessions > states[i].uses[k].sessions <==>
                  states[i + 1].uses[k].accepted > states[i].uses[k].accepted && steps[i].session)
            && (states[i + 1].uses[k].accepted > states[i].uses[k].accepted ==>
                  Presents(states[i].tokens, steps[i], k) && steps[i].otpHash == issued.otpHash && now.attempts < 5)
            && ((&& Presents(states[i].tokens, steps[i], k) && IsNewest(states[i].tokens, k)
                 && steps[i].otpHash == issued.otpHash && now.attempts < 5) ==>
                  states[i + 1].uses[k].accepted == states[i].uses[k].accepted + 1)
  {
    RunKeepsCodes(states, steps, h, i);
    assert states[i + 1] == Next(states[i], steps[i]);
    StepAccepts(states[i], steps[i], k);
  }

  /**
   Resending uses up the newest live code and issues one with its own columns,
   or does nothing without a live code.
   */
  lemma ResendReplaces(s: Store, found: Option<nat>, email: Text, hash: Text, expiresAt: int, now: int)
    requires |s.uses| == |s.tokens| && CanStep(s, Resend(found, NewToken(email, hash, expiresAt, now), now))
    ensures var ts, ts' := s.tokens, Next(s, Resend(found, NewToken(email, hash, expiresAt, now), now)).tokens;
            if exists j :: 0 <= j < |ts| && ts[j].emailHash == email && !ts[j].used && now < ts[j].expiresAt
            then
              && found.Some? && found.value < |ts| && ts[found.value].emailHash == email && !ts[found.value].used
              && |ts'| == |ts| + 1 && ts'[found.value] == ts[found.value].(used := true)
              && (forall j :: 0 <= j < |ts| && j != found.value ==> ts'[j] == ts[j])
              && ts'[|ts|].emailHash == email && ts'[|ts|].otpHash == hash && ts'[|ts|].expiresAt == expiresAt
              && !ts'[|ts|].used && ts'[|ts|].attempts == 0 && ts'[|ts|].createdAt == now
            else ts' == ts
  {
  }

  /** A code accepted once is used, so no step presents it again. */
  lemma AcceptedIsUsed(states: seq<Store>, steps: seq<Step>, i: nat, k: nat)
    requires IsRun(states, steps) && i < |states| && k < |states[i].tokens|
    ensures |states[i].uses| == |states[i].tokens|
    ensures states[i].uses[k].accepted > 0 ==> states[i].tokens[k].used
  {
    RunKeepsInv(states, steps, i);
  }

  // ---------------------------------------------------------------------------
  // Totals for one e-mail
  // ---------------------------------------------------------------------------

  function Issued(ts: seq<OtpToken>, email: Text): nat {
    if ts == [] then 0 else Issued(ts[..|ts| - 1], email) + (if ts[|ts| - 1].emailHash == email then 1 else 0)
  }

  function Compared(ts: seq<OtpToken>, us: seq<Use>, email: Text): nat
    requires |ts| == |us|
  {
    if ts == [] then 0
    else Compared(ts[..|ts| - 1], us[..|us| - 1], email)
         + (if ts[|ts| - 1].emailHash == email then us[|us| - 1].compared else 0)
  }

  function Sessions(ts: seq<OtpToken>, us: seq<Use>, email: Text): nat
    requires |ts| == |us|
  {
    if ts == [] then 0
    else Sessions(ts[..|ts| - 1], us[..|us| - 1], email)
         + (if ts[|ts| - 1].emailHash == email then us[|us| - 1].sessions else 0)
  }

  lemma {:induction false} TotalsBounded(ts: seq<OtpToken>, us: seq<Use>, email: Text)
    requires |ts| == |us| && forall i :: 0 <= i < |ts| ==> UseOk(ts[i], us[i])
    ensures Compared(ts, us, email) <= 5 * Issued(ts, email)
    ensures Sessions(ts, us, email) <= Issued(ts, email)
  {
    if ts != [] {
      TotalsBounded(ts[..|ts| - 1], us[..|us| - 1], email);
    }
  }

  /**
   Over any run each code is compared at most five times and accepted at most
   once, so for an e-mail the comparisons never exceed five per code issued nor
   the sessions the codes issued.
   */
  lemma GuessesBounded(states: seq<Store>, steps: seq<Step>, i: nat, k: nat, email: Text)
    requires IsRun(states, steps) && i < |states|
    ensures var s := states[i];
            && |s.uses| == |s.tokens|
            && (k < |s.tokens| ==> s.uses[k].compared <= 5 && s.uses[k].accepted <= 1)
            && Compared(s.tokens, s.uses, email) <= 5 * Issued(s.tokens, email)
            && Sessions(s.tokens, s.uses, email) <= Issued(s.tokens, email)
  {
    RunKeepsInv(states, steps, i);
    TotalsBounded(states[i].tokens, states[i].uses, email);
  }
}
