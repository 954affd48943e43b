/**
 * Who counts as a Pro user. There is one plan test. Two components apply it
 * to what they read back from the profile: the gate in front of the members'
 * pages, and the upgrade call-to-action. They read the profile differently,
 * so they disagree about users without a profile row and rows without a plan.
 *
 * The auth and profile reads are inputs: what came back, or that the call threw.
 */
module Access {

  import opened Wrappers

  /** `isProPlan(plan, isActive)`. A null or missing value is `None`. */
  function IsProPlan(plan: Option<string>, isActive: Option<bool>): (pro: bool)
    ensures isActive == Some(false) ==> !pro
    ensures isActive != Some(false) ==> (pro <==> plan == Some("pro"))
  {
    if isActive == Some(false) then false else plan == Some("pro")
  }

  /** Only an explicit `false` deactivates, and only `pro` is a paid plan. */
  lemma IsProPlanExactly(plan: Option<string>, isActive: Option<bool>)
    ensures IsProPlan(plan, isActive) <==> plan == Some("pro") && (isActive.None? || isActive.value)
  {
  }

  /** A `profiles` row: the plan and the active flag, either of which may be null. */
  datatype Profile = Profile(plan: Option<string>, isActive: Option<bool>)

  /** The answer of `auth.getUser()`. */
  datatype UserLookup = UserError | NoUser | SignedIn(userId: string)

  /** The answer of a profile read: whether it reported an error, and the row it returned, if any. */
  datatype ProfileRead = ProfileRead(failed: bool, row: Option<Profile>)

  /** A check either completes with these answers or throws. */
  datatype Check = Threw | Completed(user: UserLookup, profile: ProfileRead)

  // ---------------------------------------------------------------------
  // The gate
  // ---------------------------------------------------------------------

  /** The gate's state: still checking, and whether the user is let in. */
  datatype GateState = GateState(loading: bool, allowed: bool)

  const GateStart: GateState := GateState(true, false)

  /**
   * The plan and active flag the gate tests. A missing row and a null plan
   * default to `pro`, and a null active flag defaults to active.
   */
  function GatePlan(row: Option<Profile>): (r: (Option<string>, Option<bool>))
    ensures r.0.Some? && r.1.Some?
    ensures row.None? ==> r == (Some("pro"), Some(true))
    ensures row.Some? ==> r.0 == Some(row.value.plan.GetOr("pro")) && r.1 == Some(row.value.isActive.GetOr(true))
  {
    match row
    case None => (Some("pro"), Some(true))
    case Some(p) => (Some(p.plan.GetOr("pro")), Some(p.isActive.GetOr(true)))
  }

  /**
   * `checkPro`, from the start state. `betaRequirePro` is the beta flag,
   * which picks between two branches that do the same thing.
   */
  function CheckPro(c: Check, betaRequirePro: bool): (s: GateState)
    ensures !s.loading
    ensures c.Threw? ==> !s.allowed
    ensures c.Completed? && !c.user.SignedIn? ==> !s.allowed
    // a signed-in user without a row is let in, whatever the read reported
    ensures c.Completed? && c.user.SignedIn? && c.profile.row.None? ==> s.allowed
    // with a row: a null plan counts as pro, only an explicit false deactivates
    ensures c.Completed? && c.user.SignedIn? && c.profile.row.Some? ==>
      (s.allowed <==> c.profile.row.value.plan in {None, Some("pro")} && c.profile.row.value.isActive != Some(false))
  {
    match c
    case Threw => GateState(false, false)
    case Completed(user, profile) =>
      if user.UserError? || user.NoUser? then GateState(false, false)
      else
        var (plan, active) := GatePlan(profile.row);
        var pro := IsProPlan(plan, active);
        if betaRequirePro then GateState(false, pro) else GateState(false, pro)
  }

  /** The beta flag does not change the decision. */
  lemma GateIgnoresBetaFlag(c: Check)
    ensures CheckPro(c, true) == CheckPro(c, false)
  {
  }

  /** What the gate shows. */
  datatype GateView = Checking | Invitation | Children

  function GateRender(s: GateState): (v: GateView)
    ensures v == Checking <==> s.loading
    ensures v == Children <==> !s.loading && s.allowed
  {
    if s.loading then Checking else if !s.allowed then Invitation else Children
  }

  /** The gate shows its children exactly to a signed-in user whose profile passes the plan test. */
  lemma GateShowsChildrenIff(c: Check, betaRequirePro: bool)
    ensures GateRender(CheckPro(c, betaRequirePro)) == Children <==>
      && c.Completed? && c.user.SignedIn?
      && var (plan, active) := GatePlan(c.profile.row); IsProPlan(plan, active)
  {
  }

  // ---------------------------------------------------------------------
  // The call-to-action
  // ---------------------------------------------------------------------

  /** The call-to-action's state: still loading, and whether the user is Pro. */
  datatype CtaState = CtaState(loading: bool, isPro: bool)

  const CtaStart: CtaState := CtaState(true, false)

  /**
   * `fetchPlan`, from the start state. Its read fails when there is no row.
   * Nothing catches a throw, so the component stays loading.
   */
  function FetchPlan(c: Check): (s: CtaState)
    ensures c.Threw? ==> s == CtaStart
    ensures c.Completed? ==> !s.loading
    ensures c.Completed? && !c.user.SignedIn? ==> !s.isPro
    ensures c.Completed? && c.user.SignedIn? && c.profile.failed ==> !s.isPro
    ensures c.Completed? && c.user.SignedIn? && !c.profile.failed ==>
      (s.isPro <==> c.profile.row.Some? && c.profile.row.value.plan == Some("pro") && c.profile.row.value.isActive != Some(false))
  {
    match c
    case Threw => CtaStart
    case Completed(user, profile) =>
      if user.UserError? || user.NoUser? then CtaState(false, false)
      else if profile.failed then CtaState(false, false)
      else
        var plan := if profile.row.Some? then profile.row.value.plan else None;
        var active := if profile.row.Some? then profile.row.value.isActive else None;
        CtaState(false, IsProPlan(plan, active))
  }

  /** The call-to-action shows once loading is over and the user is not Pro. */
  function CtaShown(s: CtaState): (shown: bool)
    ensures shown ==> !s.isPro
    ensures !s.loading ==> (shown <==> !s.isPro)
  {
    !s.loading && !s.isPro
  }

  /**
   * A signed-in user with no profile row is let through the gate (whose
   * read returns no row and no error), yet is asked to upgrade (whose read
   * fails on the missing row).
   */
  lemma NoRowAdmittedAndAskedToUpgrade(userId: string, betaRequirePro: bool)
    ensures GateRender(CheckPro(Completed(SignedIn(userId), ProfileRead(false, None)), betaRequirePro)) == Children
    ensures CtaShown(FetchPlan(Completed(SignedIn(userId), ProfileRead(true, None))))
  {
  }

  /** The same holds for a row whose plan is null: the gate reads it as Pro, the call-to-action does not. */
  lemma NullPlanAdmittedAndAskedToUpgrade(userId: string, p: Profile, betaRequirePro: bool)
    requires p.plan.None? && p.isActive != Some(false)
    ensures GateRender(CheckPro(Completed(SignedIn(userId), ProfileRead(false, Some(p))), betaRequirePro)) == Children
    ensures CtaShown(FetchPlan(Completed(SignedIn(userId), ProfileRead(false, Some(p)))))
  {
  }

  /** On a row with a plan set, read without error, the gate and the call-to-action agree. */
  lemma GateAndCtaAgreeOnSetPlan(userId: string, p: Profile, betaRequirePro: bool)
    requires p.plan.Some?
    ensures CheckPro(Completed(SignedIn(userId), ProfileRead(false, Some(p))), betaRequirePro).allowed
        == FetchPlan(Completed(SignedIn(userId), ProfileRead(false, Some(p)))).isPro
  {
  }
}
