/**
 * The OTP sign-in modal (src/components/AuthWrapper.tsx) as a transition
 * function. The modal moves from entering a phone number to entering the
 * code, and then either signs the user in or moves on to registration.
 * The results of the three requests, and the timer's one-second ticks,
 * arrive as events. A call of the `onSuccess` callback is recorded as a
 * `Session`. The resend countdown is the effect that runs after every
 * render.
 */
module Auth {

  import opened Js
  import opened Types
  import Seqs
  import Text

  datatype Step = PhoneStep | OtpStep | RegisterStep

  /** A call of `onSuccess(user, token)`. */
  datatype Session = Session(user: User, token: string)

  datatype State = State(
    step: Step,
    phone: string,
    resendTimer: int,
    canResend: bool,
    error: string,
    sessions: seq<Session>)

  const ResendSeconds := 60

  /** The modal as it opens. */
  const Initial := State(PhoneStep, "", ResendSeconds, false, "", [])

  /** What `sendOtpApi` did: answered (with `success`) or threw (with the server's message, if any). */
  datatype SendResult = SendAnswered(success: bool) | SendThrew(message: Option<string>)

  /** What `verifyOtpApi` did. */
  datatype VerifyResult =
    | VerifyAnswered(success: bool, isRegistered: bool, token: Option<string>, user: Option<User>)
    | VerifyThrew(message: Option<string>)

  /** What the profile request after registering did; a failure there carries no server message. */
  datatype ProfileResult = ProfileAnswered(success: bool, user: Option<User>) | ProfileFailed

  /** What `registerUserApi`, and the profile request after it, did. */
  datatype RegisterResult =
    | RegisterAnswered(success: bool, token: Option<string>, user: Option<User>, profile: ProfileResult)
    | RegisterThrew(message: Option<string>)

  /** The registration form. Experience stays the text the user typed. */
  datatype Form = Form(name: string, email: string, password: string, role: string,
                       categories: string, experienceYears: string)

  datatype ServiceDetails = ServiceDetails(categories: seq<string>, experienceYears: string)

  datatype RegisterPayload = RegisterPayload(name: string, email: string, password: string, phone: string,
                                             role: string, serviceDetails: Option<ServiceDetails>)

  datatype Event =
    | PhoneTyped(phone: string)
    | SendOtp(send: SendResult)
    | VerifyOtp(verify: VerifyResult)
    | Register(form: Form, result: RegisterResult)
    | Tick

  /** The effect on `[step, resendTimer]`: once the countdown is over, resending is allowed. */
  function Settle(st: State): (r: State)
    ensures r.resendTimer == st.resendTimer && r.step == st.step && r.sessions == st.sessions
    ensures r.error == st.error
    ensures r.canResend <==> st.canResend || st.resendTimer <= 0
  {
    if st.resendTimer <= 0 then st.(canResend := true) else st
  }

  /**
   * The part of `sendOtp` after the await: success opens the code step with
   * a fresh countdown, a throw shows its message, and nothing here clears
   * the error.
   */
  function SendReturned(st: State, res: SendResult): (r: State)
    ensures st.error != "" ==> r.error != ""
    ensures res.SendAnswered? && res.success ==>
              r == st.(step := OtpStep, resendTimer := ResendSeconds, canResend := false)
    ensures res.SendAnswered? && !res.success ==> r == st
    ensures res.SendThrew? ==> r == st.(error := StrOr(res.message, "Failed to send OTP"))
  {
    match res
    case SendThrew(message) => st.(error := StrOr(message, "Failed to send OTP"))
    case SendAnswered(success) =>
      if success then st.(step := OtpStep, resendTimer := ResendSeconds, canResend := false) else st
  }

  /** `sendOtp`: success opens the code step with a fresh countdown; an answer without success changes nothing else. */
  function Send(st: State, res: SendResult): (r: State)
    ensures res.SendAnswered? && res.success ==>
              r.step == OtpStep && r.resendTimer == ResendSeconds && !r.canResend && r.error == ""
    ensures res.SendAnswered? && !res.success ==> r == st.(error := "")
    ensures res.SendThrew? ==> r == st.(error := StrOr(res.message, "Failed to send OTP"))
    ensures r.sessions == st.sessions
  {
    SendReturned(st.(error := ""), res)
  }

  /**
   * The part of `verifyOtp` after the await: failures show their message, a
   * registered user with token and user signs in, an unregistered one moves
   * on to registration, and nothing here clears the error.
   */
  function VerifyReturned(st: State, res: VerifyResult): (r: State)
    ensures st.error != "" ==> r.error != ""
    ensures r.resendTimer == st.resendTimer && r.canResend == st.canResend
    ensures r.step != st.step ==> r.step == RegisterStep
    ensures res.VerifyAnswered? && res.success && res.isRegistered && StrTruthy(res.token) && res.user.Some? ==>
              r == st.(sessions := st.sessions + [Session(res.user.value, res.token.value)])
    ensures res.VerifyAnswered? && res.success && !res.isRegistered ==> r == st.(step := RegisterStep)
    ensures res.VerifyAnswered? && !res.success ==> r == st.(error := "Verification failed")
    ensures res.VerifyAnswered? && res.success && res.isRegistered && !(StrTruthy(res.token) && res.user.Some?) ==>
              r == st.(error := "Missing user data or token after verification.")
    ensures res.VerifyThrew? ==> r == st.(error := StrOr(res.message, "OTP verification failed"))
  {
    match res
    case VerifyThrew(message) => st.(error := StrOr(message, "OTP verification failed"))
    case VerifyAnswered(success, isRegistered, token, user) =>
      if !success then st.(error := "Verification failed")
      else if isRegistered then
        if !StrTruthy(token) || user.None? then st.(error := "Missing user data or token after verification.")
        else st.(sessions := st.sessions + [Session(user.value, token.value)])
      else st.(step := RegisterStep)
  }

  /** `verifyOtp`. */
  function Verify(st: State, res: VerifyResult): (r: State)
    ensures r.step != st.step ==> r.step == RegisterStep
    ensures r.step == RegisterStep && st.step != RegisterStep <==>
              st.step != RegisterStep && res.VerifyAnswered? && res.success && !res.isRegistered
    ensures |r.sessions| > |st.sessions| <==>
              res.VerifyAnswered? && res.success && res.isRegistered && StrTruthy(res.token) && res.user.Some?
    ensures |r.sessions| > |st.sessions| ==>
              r.sessions == st.sessions + [Session(res.user.value, res.token.value)]
    ensures |r.sessions| == |st.sessions| ==> r.sessions == st.sessions
    ensures res.VerifyAnswered? && !res.success ==> r.error == "Verification failed" && r.step == st.step
    ensures res.VerifyAnswered? && res.success && res.isRegistered && !(StrTruthy(res.token) && res.user.Some?) ==>
              r.error == "Missing user data or token after verification." && r.step == st.step
    ensures res.VerifyThrew? ==> r.error == StrOr(res.message, "OTP verification failed") && r.step == st.step
    ensures r.resendTimer == st.resendTimer && r.canResend == st.canResend
  {
    VerifyReturned(st.(error := ""), res)
  }

  /** The categories as the form sends them: `split(",")` then `trim` on every piece. */
  function ParseCategories(text: string): (cats: seq<string>)
    ensures |cats| == Text.Count(text, ',') + 1
    ensures forall i :: 0 <= i < |cats| ==> cats[i] == Text.Trim(Text.Split(text, ',')[i])
    ensures forall i :: 0 <= i < |cats| ==> ',' !in cats[i] && Text.NoEdgeSpace(cats[i])
  {
    var parts := Text.Split(text, ',');
    Text.TrimEach(parts, ',');
    Seqs.Map(parts, Text.Trim)
  }

  /** Categories typed without spaces around the commas come back exactly. */
  lemma ParseCategoriesOfJoin(names: seq<string>)
    requires |names| >= 1
    requires forall i :: 0 <= i < |names| ==> ',' !in names[i] && Text.Trim(names[i]) == names[i]
    ensures ParseCategories(Text.Join(names, ",")) == names
  {
    Text.SplitJoin(names, ',');
  }

  /** The payload `register` sends: service details exactly for a service person. */
  function BuildPayload(form: Form, phone: string): (p: RegisterPayload)
    ensures p.name == form.name && p.email == form.email && p.password == form.password
    ensures p.phone == phone && p.role == form.role
    ensures p.serviceDetails.Some? <==> form.role == "service_person"
    ensures p.serviceDetails.Some? ==> p.serviceDetails.value.categories == ParseCategories(form.categories)
    ensures p.serviceDetails.Some? ==> |p.serviceDetails.value.categories| == Text.Count(form.categories, ',') + 1
  {
    RegisterPayload(form.name, form.email, form.password, phone, form.role,
                    if form.role == "service_person"
                    then Some(ServiceDetails(ParseCategories(form.categories), form.experienceYears))
                    else None)
  }

  /**
   * A service person who types clean category names joined by "," sends
   * exactly those names; any other role sends no service details at all.
   */
  lemma PayloadCarriesTypedCategories(form: Form, phone: string, names: seq<string>)
    requires |names| >= 1
    requires forall i :: 0 <= i < |names| ==> ',' !in names[i] && Text.Trim(names[i]) == names[i]
    requires form.categories == Text.Join(names, ",")
    ensures form.role == "service_person" ==>
              BuildPayload(form, phone).serviceDetails == Some(ServiceDetails(names, form.experienceYears))
    ensures form.role != "service_person" ==> BuildPayload(form, phone).serviceDetails.None?
  {
    ParseCategoriesOfJoin(names);
  }

  /**
   * `register`: a complete answer signs the user in with the returned user,
   * and again with the profile's user when that request succeeds.
   */
  function DoRegister(st: State, res: RegisterResult): (r: State)
    ensures r.step == st.step && r.resendTimer == st.resendTimer && r.canResend == st.canResend
    ensures |r.sessions| > |st.sessions| <==>
              res.RegisterAnswered? && res.success && StrTruthy(res.token) && res.user.Some?
    ensures |r.sessions| > |st.sessions| ==>
              r.sessions[..|st.sessions| + 1] == st.sessions + [Session(res.user.value, res.token.value)]
    ensures |r.sessions| == |st.sessions| ==> r.sessions == st.sessions
    ensures res.RegisterThrew? ==> r.error == StrOr(res.message, "Registration failed unexpectedly")
    ensures res.RegisterAnswered? && !(res.success && StrTruthy(res.token) && res.user.Some?) ==>
              r.error == "Registration failed."
    ensures res.RegisterAnswered? && res.success && StrTruthy(res.token) && res.user.Some? ==>
              (|r.sessions| == |st.sessions| + 2 <==>
               res.profile.ProfileAnswered? && res.profile.success && res.profile.user.Some?)
    ensures |r.sessions| == |st.sessions| + 2 ==>
              r.sessions[|st.sessions| + 1] == Session(res.profile.user.value, res.token.value) && r.error == ""
    ensures res.RegisterAnswered? && res.success && StrTruthy(res.token) && res.user.Some? &&
            res.profile.ProfileAnswered? && !(res.profile.success && res.profile.user.Some?) ==>
              r.error == "Could not fetch user profile after registration."
  {
    RegisterReturned(st.(error := ""), res)
  }

  /**
   * The part of `register` after the awaits: an incomplete answer or a throw
   * shows its message, a complete one signs in and runs the profile request,
   * and nothing here clears the error.
   */
  function RegisterReturned(st: State, res: RegisterResult): (r: State)
    ensures st.error != "" ==> r.error != ""
    ensures r.step == st.step && r.resendTimer == st.resendTimer && r.canResend == st.canResend
    ensures res.RegisterThrew? ==> r == st.(error := StrOr(res.message, "Registration failed unexpectedly"))
    ensures res.RegisterAnswered? && !(res.success && StrTruthy(res.token) && res.user.Some?) ==>
              r == st.(error := "Registration failed.")
    ensures res.RegisterAnswered? && res.success && StrTruthy(res.token) && res.user.Some? ==>
              r == AfterProfile(st.(sessions := st.sessions + [Session(res.user.value, res.token.value)]),
                                res.token.value, res.profile)
  {
    match res
    case RegisterThrew(message) => st.(error := StrOr(message, "Registration failed unexpectedly"))
    case RegisterAnswered(success, token, user, profile) =>
      if !success || !StrTruthy(token) || user.None? then st.(error := "Registration failed.")
      else AfterProfile(st.(sessions := st.sessions + [Session(user.value, token.value)]), token.value, profile)
  }

  /** The profile request that follows a complete registration answer, given the state already signed in. */
  function AfterProfile(st: State, token: string, profile: ProfileResult): (r: State)
    ensures r.step == st.step && r.resendTimer == st.resendTimer && r.canResend == st.canResend
    ensures |r.sessions| == |st.sessions| + 1 <==> profile.ProfileAnswered? && profile.success && profile.user.Some?
    ensures |r.sessions| == |st.sessions| + 1 ==>
              r.sessions == st.sessions + [Session(profile.user.value, token)] && r.error == st.error
    ensures |r.sessions| == |st.sessions| ==> r.sessions == st.sessions
    ensures profile.ProfileFailed? ==> r.error == "Registration failed unexpectedly"
    ensures profile.ProfileAnswered? && !(profile.success && profile.user.Some?) ==>
              r.error == "Could not fetch user profile after registration."
  {
    match profile
    case ProfileFailed => st.(error := "Registration failed unexpectedly")
    case ProfileAnswered(ok, profileUser) =>
      if ok && profileUser.Some? then st.(sessions := st.sessions + [Session(profileUser.value, token)])
      else st.(error := "Could not fetch user profile after registration.")
  }

  /** One interval tick: the countdown runs only in the code step while it is above zero. */
  function DoTick(st: State): (r: State)
    ensures st.step == OtpStep && st.resendTimer > 0 ==> r == st.(resendTimer := st.resendTimer - 1)
    ensures !(st.step == OtpStep && st.resendTimer > 0) ==> r == st
  {
    if st.step == OtpStep && st.resendTimer > 0 then st.(resendTimer := st.resendTimer - 1) else st
  }

  /** The modal's reaction to one event, including the effect that follows the render. */
  function Next(st: State, ev: Event): State {
    Settle(match ev
           case PhoneTyped(phone) => st.(phone := phone)
           case SendOtp(res) => Send(st, res)
           case VerifyOtp(res) => Verify(st, res)
           case Register(_, res) => DoRegister(st, res)
           case Tick => DoTick(st))
  }

  /** The events the rendered modal can produce in a state. */
  predicate Available(st: State, ev: Event) {
    match ev
    case PhoneTyped(_) => st.step == PhoneStep
    case SendOtp(_) => st.step == PhoneStep || (st.step == OtpStep && st.canResend)
    case VerifyOtp(_) => st.step == OtpStep
    case Register(_, _) => st.step == RegisterStep
    case Tick => true
  }

  /** The countdown stays within 0..60, and resending is allowed exactly when it has reached 0. */
  predicate Inv(st: State) {
    0 <= st.resendTimer <= ResendSeconds && (st.canResend <==> st.resendTimer == 0)
  }

  lemma InitialInv()
    ensures Inv(Initial)
    ensures Initial.step == PhoneStep && Initial.resendTimer == 60 && !Initial.canResend
  {
  }

  /** Every event keeps the countdown invariant. */
  lemma NextKeepsInv(st: State, ev: Event)
    requires Inv(st)
    ensures Inv(Next(st, ev))
  {
  }

  /** Where a step sits in the flow phone → code → registration. */
  function Rank(s: Step): nat {
    match s
    case PhoneStep => 0
    case OtpStep => 1
    case RegisterStep => 2
  }

  /** The modal never goes back a step through its own controls. */
  lemma NextNeverGoesBack(st: State, ev: Event)
    requires Available(st, ev)
    ensures Rank(Next(st, ev).step) >= Rank(st.step)
  {
  }

  /** Every recorded sign-in carries a non-empty token. */
  predicate SessionsHaveTokens(st: State) {
    forall i :: 0 <= i < |st.sessions| ==> st.sessions[i].token != ""
  }

  lemma VerifyKeepsTokens(st: State, res: VerifyResult)
    requires SessionsHaveTokens(st)
    ensures SessionsHaveTokens(Verify(st, res))
  {
    var r := Verify(st, res);
    if |r.sessions| > |st.sessions| {
      assert r.sessions[|st.sessions|].token == res.token.value;
    }
  }

  /** Signing in with a non-empty token keeps every session's token non-empty. */
  lemma SignInKeepsTokens(st: State, u: User, t: string)
    requires SessionsHaveTokens(st) && t != ""
    ensures SessionsHaveTokens(st.(sessions := st.sessions + [Session(u, t)]))
  {
  }

  lemma AfterProfileKeepsTokens(st: State, token: string, profile: ProfileResult)
    requires SessionsHaveTokens(st) && token != ""
    ensures SessionsHaveTokens(AfterProfile(st, token, profile))
  {
    var r := AfterProfile(st, token, profile);
    if |r.sessions| == |st.sessions| + 1 {
      SignInKeepsTokens(st, profile.user.value, token);
    } else {
      assert r.sessions == st.sessions;
    }
  }

  lemma RegisterKeepsTokens(st: State, res: RegisterResult)
    requires SessionsHaveTokens(st)
    ensures SessionsHaveTokens(DoRegister(st, res))
  {
    if res.RegisterAnswered? && res.success && StrTruthy(res.token) && res.user.Some? {
      var t := res.token.value;
      var signed := st.(error := "", sessions := st.sessions + [Session(res.user.value, t)]);
      SignInKeepsTokens(st.(error := ""), res.user.value, t);
      assert DoRegister(st, res) == AfterProfile(signed, t, res.profile);
      AfterProfileKeepsTokens(signed, t, res.profile);
    }
  }

  lemma NextKeepsTokens(st: State, ev: Event)
    requires SessionsHaveTokens(st)
    ensures SessionsHaveTokens(Next(st, ev))
  {
    match ev {
      case VerifyOtp(res) => VerifyKeepsTokens(st, res);
      case Register(_, res) => RegisterKeepsTokens(st, res);
      case _ =>
    }
  }

  function Run(st: State, evs: seq<Event>): State
    decreases |evs|
  {
    if |evs| == 0 then st else Run(Next(st, evs[0]), evs[1..])
  }

  function Ticks(n: nat): (evs: seq<Event>)
    ensures |evs| == n && forall i :: 0 <= i < n ==> evs[i] == Tick
  {
    seq(n, i => Tick)
  }

  /**
   * In the code step the countdown falls by one per tick, stops at 0, and
   * resending becomes possible when it gets there.
   */
  lemma {:induction false} TicksCountDown(st: State, n: nat)
    requires Inv(st) && st.step == OtpStep
    ensures Run(st, Ticks(n)).step == OtpStep
    ensures Run(st, Ticks(n)).resendTimer == if n <= st.resendTimer then st.resendTimer - n else 0
    ensures Run(st, Ticks(n)).canResend <==> n >= st.resendTimer
    ensures Run(st, Ticks(n)).sessions == st.sessions
    decreases n
  {
    if n > 0 {
      var next := Next(st, Tick);
      NextKeepsInv(st, Tick);
      assert Ticks(n)[1..] == Ticks(n - 1);
      TicksCountDown(next, n - 1);
    }
  }

  /*
   * `Next` treats a click and its request's answer as one event. In the
   * component every handler awaits its request before updating the state,
   * and the controls stay drawn meanwhile, so answers can arrive after other
   * clicks and out of order. The rest of the module models that.
   */

  /** A request of the modal that was sent and has not been answered yet. */
  datatype Request = SendRequest | VerifyRequest | RegisterRequest

  /** The modal together with its requests in flight, in the order they were sent. */
  datatype Modal = Modal(st: State, pending: seq<Request>)

  /**
   * What can happen next: typing, a click that sends a request (clearing the
   * error first), the answer to the `j`-th request in flight, or a tick.
   */
  datatype Action =
    | Typed(phone: string)
    | Clicked(req: Request)
    | SendAnswer(j: nat, send: SendResult)
    | VerifyAnswer(j: nat, verify: VerifyResult)
    | RegisterAnswer(j: nat, result: RegisterResult)
    | Ticked

  /** The control that sends the request is drawn: the send or resend link, Verify, or the registration form. */
  predicate Drawn(st: State, req: Request) {
    match req
    case SendRequest => st.step == PhoneStep || (st.step == OtpStep && st.canResend)
    case VerifyRequest => st.step == OtpStep
    case RegisterRequest => st.step == RegisterStep
  }

  /** The answer at `j` is to a request of that kind. */
  predicate Awaits(m: Modal, j: nat, req: Request) {
    j < |m.pending| && m.pending[j] == req
  }

  function Retire(pending: seq<Request>, j: nat): (r: seq<Request>)
    requires j < |pending|
    ensures |r| == |pending| - 1
    ensures forall x :: 0 <= x < |r| ==> r[x] == if x < j then pending[x] else pending[x + 1]
  {
    pending[..j] + pending[j + 1..]
  }

  /**
   * One action: a click on a drawn control clears the error and records its
   * request, and an answer runs the part of its handler after the await on
   * the state as it is by then.
   * Clicks on controls not drawn and answers to no such request do nothing.
   */
  function Act(m: Modal, a: Action): (r: Modal)
    ensures a.Clicked? && Drawn(m.st, a.req) ==>
              r == Modal(Settle(m.st.(error := "")), m.pending + [a.req])
    ensures a.SendAnswer? && Awaits(m, a.j, SendRequest) ==>
              r == Modal(Settle(SendReturned(m.st, a.send)), Retire(m.pending, a.j))
    ensures a.VerifyAnswer? && Awaits(m, a.j, VerifyRequest) ==>
              r == Modal(Settle(VerifyReturned(m.st, a.verify)), Retire(m.pending, a.j))
    ensures a.RegisterAnswer? && Awaits(m, a.j, RegisterRequest) ==>
              r == Modal(Settle(RegisterReturned(m.st, a.result)), Retire(m.pending, a.j))
    ensures a.Clicked? && !Drawn(m.st, a.req) ==> r == m
    ensures a.SendAnswer? && !Awaits(m, a.j, SendRequest) ==> r == m
  {
    match a
    case Typed(phone) => if m.st.step == PhoneStep then m.(st := Settle(m.st.(phone := phone))) else m
    case Clicked(req) => if Drawn(m.st, req) then Modal(Settle(m.st.(error := "")), m.pending + [req]) else m
    case SendAnswer(j, res) =>
      if Awaits(m, j, SendRequest) then Modal(Settle(SendReturned(m.st, res)), Retire(m.pending, j)) else m
    case VerifyAnswer(j, res) =>
      if Awaits(m, j, VerifyRequest) then Modal(Settle(VerifyReturned(m.st, res)), Retire(m.pending, j)) else m
    case RegisterAnswer(j, res) =>
      if Awaits(m, j, RegisterRequest) then Modal(Settle(RegisterReturned(m.st, res)), Retire(m.pending, j)) else m
    case Ticked => m.(st := Settle(DoTick(m.st)))
  }

  function ActAll(m: Modal, acts: seq<Action>): Modal
    decreases |acts|
  {
    if |acts| == 0 then m else ActAll(Act(m, acts[0]), acts[1..])
  }

  /** Under the countdown invariant the effect has already run: settling changes nothing. */
  lemma SettleStable(st: State)
    requires Inv(st)
    ensures Settle(st) == st
  {
  }

  /** A resend answered before anything else happens is exactly the atomic `SendOtp` event. */
  lemma SerialSendIsNext(st: State, res: SendResult)
    requires Inv(st) && Drawn(st, SendRequest)
    ensures ActAll(Modal(st, []), [Clicked(SendRequest), SendAnswer(0, res)]) == Modal(Next(st, SendOtp(res)), [])
  {
    SettleStable(st.(error := ""));
    var m1 := Act(Modal(st, []), Clicked(SendRequest));
    assert ActAll(m1, [SendAnswer(0, res)]) == Act(m1, SendAnswer(0, res));
  }

  /** A verification answered before anything else happens is exactly the atomic `VerifyOtp` event. */
  lemma SerialVerifyIsNext(st: State, res: VerifyResult)
    requires Inv(st) && Drawn(st, VerifyRequest)
    ensures ActAll(Modal(st, []), [Clicked(VerifyRequest), VerifyAnswer(0, res)]) == Modal(Next(st, VerifyOtp(res)), [])
  {
    SettleStable(st.(error := ""));
    var m1 := Act(Modal(st, []), Clicked(VerifyRequest));
    assert ActAll(m1, [VerifyAnswer(0, res)]) == Act(m1, VerifyAnswer(0, res));
  }

  /** A registration answered before anything else happens is exactly the atomic `Register` event. */
  lemma SerialRegisterIsNext(st: State, form: Form, res: RegisterResult)
    requires Inv(st) && Drawn(st, RegisterRequest)
    ensures ActAll(Modal(st, []), [Clicked(RegisterRequest), RegisterAnswer(0, res)]) ==
            Modal(Next(st, Register(form, res)), [])
  {
    SettleStable(st.(error := ""));
    var m1 := Act(Modal(st, []), Clicked(RegisterRequest));
    assert ActAll(m1, [RegisterAnswer(0, res)]) == Act(m1, RegisterAnswer(0, res));
  }

  /**
   * The only way back a step: a send answered while the modal is already in
   * registration (a resend clicked before a verification that came back
   * first) returns it to the code step.
   */
  lemma GoesBackOnlyByLateSend(m: Modal, a: Action)
    ensures Rank(Act(m, a).st.step) < Rank(m.st.step) ==>
              a.SendAnswer? && m.st.step == RegisterStep && Act(m, a).st.step == OtpStep
  {
    var r := Act(m, a);
    if a.SendAnswer? && Awaits(m, a.j, SendRequest) {
      assert r.st.step == SendReturned(m.st, a.send).step;
    } else if a.VerifyAnswer? && Awaits(m, a.j, VerifyRequest) {
      assert r.st.step == VerifyReturned(m.st, a.verify).step;
    } else if a.RegisterAnswer? && Awaits(m, a.j, RegisterRequest) {
      assert r.st.step == m.st.step;
    } else {
      assert r.st.step == m.st.step;
    }
  }

  /** Resend, then Verify; the verification comes back unregistered first, then the resend succeeds. */
  lemma ResendInFlightGoesBack(st: State)
    requires st.step == OtpStep && st.canResend
    ensures Act(Act(Act(Modal(st, []), Clicked(SendRequest)), Clicked(VerifyRequest)),
                VerifyAnswer(1, VerifyAnswered(true, false, None, None))).st.step == RegisterStep
    ensures Act(Act(Act(Act(Modal(st, []), Clicked(SendRequest)), Clicked(VerifyRequest)),
                    VerifyAnswer(1, VerifyAnswered(true, false, None, None))),
                SendAnswer(0, SendAnswered(true))).st.step == OtpStep
  {
    var m1 := Act(Modal(st, []), Clicked(SendRequest));
    assert m1.pending == [SendRequest] && m1.st.step == OtpStep;
    var m2 := Act(m1, Clicked(VerifyRequest));
    assert m2.pending == [SendRequest, VerifyRequest];
    var m3 := Act(m2, VerifyAnswer(1, VerifyAnswered(true, false, None, None)));
    assert m3.pending == [SendRequest];
  }

  /**
   * Once in registration with no send in flight, the modal stays there:
   * no control there sends one, and nothing else moves the step.
   */
  lemma {:induction false} RegistrationHoldsWithoutSendInFlight(m: Modal, acts: seq<Action>)
    requires m.st.step == RegisterStep && SendRequest !in m.pending
    ensures ActAll(m, acts).st.step == RegisterStep
    decreases |acts|
  {
    if |acts| > 0 {
      var next := Act(m, acts[0]);
      GoesBackOnlyByLateSend(m, acts[0]);
      assert next.st.step == RegisterStep;
      assert SendRequest !in next.pending by {
        forall x | 0 <= x < |next.pending|
          ensures next.pending[x] != SendRequest
        {
          assert next.pending[x] in m.pending || next.pending[x] == acts[0].req;
        }
      }
      RegistrationHoldsWithoutSendInFlight(next, acts[1..]);
    }
  }

  /** Only a click clears a shown error: no answer, tick or keystroke does. */
  lemma OnlyClicksClearError(m: Modal, a: Action)
    requires m.st.error != ""
    ensures Act(m, a).st.error == "" ==> a.Clicked?
  {
    match a {
      case SendAnswer(j, res) =>
        assert Act(m, a).st.error == (if Awaits(m, j, SendRequest) then SendReturned(m.st, res).error else m.st.error);
      case VerifyAnswer(j, res) =>
        assert Act(m, a).st.error == (if Awaits(m, j, VerifyRequest) then VerifyReturned(m.st, res).error else m.st.error);
      case RegisterAnswer(j, res) =>
        assert Act(m, a).st.error == (if Awaits(m, j, RegisterRequest) then RegisterReturned(m.st, res).error else m.st.error);
      case _ =>
    }
  }

  /**
   * A late answer keeps the error an earlier answer showed: resend, then
   * Verify, the verification fails first, and the resend's answer, whether
   * it succeeds or not, leaves "Verification failed" on screen.
   */
  lemma LateSendKeepsError(st: State, success: bool)
    requires st.step == OtpStep && st.canResend
    ensures Act(Act(Act(Act(Modal(st, []), Clicked(SendRequest)), Clicked(VerifyRequest)),
                    VerifyAnswer(1, VerifyAnswered(false, false, None, None))),
                SendAnswer(0, SendAnswered(success))).st.error == "Verification failed"
  {
    var m1 := Act(Modal(st, []), Clicked(SendRequest));
    assert m1.pending == [SendRequest] && m1.st.step == OtpStep;
    var m2 := Act(m1, Clicked(VerifyRequest));
    assert m2.pending == [SendRequest, VerifyRequest];
    var m3 := Act(m2, VerifyAnswer(1, VerifyAnswered(false, false, None, None)));
    assert m3.pending == [SendRequest] && m3.st.error == "Verification failed";
  }
}
