/** `init`: confirm, reset the schema, install the procedures, add the
    administrator, in that order (ctforge/scripts/ctforge.py:73-117). */
module Setup {
  import opened Outcomes
  import opened Accounts
  import opened Database

  /** `exit_on_resp`: only the answers "y" and "Y" let execution go on. */
  predicate Confirmed(answer: string) {
    answer in ["y", "Y"]
  }

  /** How the administrator's password reaches `init`: from the command
      line, or typed twice at a prompt. */
  datatype PasswordInput = FromArguments(password: string) | Typed(first: string, second: string)

  /** The password to use, or None when the two typed copies differ. */
  function ChosenPassword(input: PasswordInput): Option<string> {
    match input
    case FromArguments(p) => Some(p)
    case Typed(p, q) => if p == q then Some(p) else None
  }

  /** The administrator details `init` collects; affiliation is always None. */
  datatype AdminInput = AdminInput(name: string, surname: string, nickname: string, mail: string,
                                   password: PasswordInput)

  /** The step of `init` that failed. */
  datatype InitStep = ResetSchemaStep | InstallProceduresStep | AddAdminStep

  datatype InitStatus =
    | Declined                               // answer was not y/Y: exit(1)
    | StepFailed(step: InitStep, error: DbError)
    | PasswordMismatch                       // exit(1) after the reset and the procedures
    | Initialised

  /** The server's answers to the three store-changing steps. */
  datatype InitEnv = InitEnv(reset: ResetOutcome, procedures: DbOutcome, insert: DbOutcome)

  /** The administrator row `init` inserts for a password. */
  function InitAdminRow(admin: AdminInput, password: string, hashpw: string -> string): UserRow {
    AdminRow(admin.name, admin.surname, Some(admin.nickname), admin.mail, None, password, hashpw)
  }

  /** `init` up to the administrator insert, as a transition of the store. */
  function InitRun(s: DbState, answer: string, admin: AdminInput, hashpw: string -> string,
                   env: InitEnv): (DbState, InitStatus)
  {
    if !Confirmed(answer) then (s, Declined)
    else
      var s1 := ResetSchema(s, env.reset);
      if !env.reset.Recreated? then (s1, StepFailed(ResetSchemaStep, ResetError(env.reset)))
      else
        var s2 := InstallProcedures(s1, env.procedures);
        if env.procedures.Rejected? then (s2, StepFailed(InstallProceduresStep, env.procedures.error))
        else
          match ChosenPassword(admin.password)
          case None => (s2, PasswordMismatch)
          case Some(p) =>
            var s3 := InsertUser(s2, InitAdminRow(admin, p, hashpw), env.insert);
            if env.insert.Rejected? then (s3, StepFailed(AddAdminStep, env.insert.error))
            else (s3, Initialised)
  }

  /** Any answer but "y" or "Y" stops `init` before it touches the store. */
  lemma DeclineChangesNothing(s: DbState, answer: string, admin: AdminInput, hashpw: string -> string,
                              env: InitEnv)
    requires answer != "y" && answer != "Y"
    ensures InitRun(s, answer, admin, hashpw, env) == (s, Declined)
  {
  }

  /** `init` succeeds exactly when the answer is y/Y, every step commits and
      the password is settled; the store then holds the schema, the
      procedures, no challenge and one account: the hidden administrator. */
  lemma InitialisedExactly(s: DbState, answer: string, admin: AdminInput, hashpw: string -> string,
                           env: InitEnv)
    ensures var (s', status) := InitRun(s, answer, admin, hashpw, env);
      status == Initialised <==>
        Confirmed(answer) && env.reset.Recreated? && env.procedures.Committed?
        && ChosenPassword(admin.password).Some? && env.insert.Committed?
    ensures var (s', status) := InitRun(s, answer, admin, hashpw, env);
      status == Initialised ==>
        && s'.schema && s'.procedures && s'.challenges == [] && |s'.users| == 1
        && s'.users[0] == InitAdminRow(admin, ChosenPassword(admin.password).value, hashpw)
        && s'.users[0].admin && s'.users[0].hidden && s'.users[0].teamId == None
        && s'.users[0].affiliation == None
  {
  }

  /** The steps run in order and each one needs the ones before it: once the
      answer is accepted, every earlier account and challenge is gone unless
      the DROP failed; procedures are only there on top of the schema; an
      account is only there once both are, and it is the administrator. */
  lemma InitStepOrder(s: DbState, answer: string, admin: AdminInput,
                      hashpw: string -> string, env: InitEnv)
    requires Confirmed(answer)
    ensures var (s', status) := InitRun(s, answer, admin, hashpw, env);
      && (env.reset.DropFailed? ==> s' == s && status == StepFailed(ResetSchemaStep, env.reset.error))
      && (!env.reset.DropFailed? ==> s'.challenges == [] && |s'.users| <= 1)
      && (!env.reset.DropFailed? && s'.procedures ==> s'.schema)
      && (!env.reset.DropFailed? && s'.users != [] ==>
            s'.procedures && status == Initialised && AdminsHidden(s'.users))
  {
  }

  /** A mismatched password leaves a freshly reset store with procedures
      and no administrator: the reset is not undone. */
  lemma MismatchAfterReset(s: DbState, answer: string, admin: AdminInput, hashpw: string -> string,
                           env: InitEnv)
    requires Confirmed(answer) && env.reset.Recreated? && env.procedures.Committed?
    requires admin.password.Typed? && admin.password.first != admin.password.second
    ensures InitRun(s, answer, admin, hashpw, env) == (DbState([], [], true, true), PasswordMismatch)
  {
  }
}
