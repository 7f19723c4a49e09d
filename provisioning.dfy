/** The provisioning commands run against one target database. Each method
    is one function of ctforge/scripts/ctforge.py; the server's answer to
    each statement is a parameter, and so is the password hasher. */
module Provisioning {
  import opened Outcomes
  import opened Accounts
  import opened Challenges
  import opened Database
  import opened UserImport
  import opened Setup

  class Store {
    var users: seq<UserRow>
    var challenges: seq<ChallengeRow>
    var schemaInstalled: bool
    var proceduresInstalled: bool

    /** The store as a value. */
    function State(): DbState
      reads this
    {
      DbState(users, challenges, schemaInstalled, proceduresInstalled)
    }

    /** A server on which the target database holds nothing yet. */
    constructor ()
      ensures State() == DbState([], [], false, false)
    {
      users, challenges := [], [];
      schemaInstalled, proceduresInstalled := false, false;
    }

    /** `db_create_schema`: drop the database, create it afresh, run the
        schema script. */
    method CreateSchema(outcome: ResetOutcome) returns (ok: bool)
      modifies this
      ensures ok == outcome.Recreated?
      ensures State() == ResetSchema(old(State()), outcome)
      ensures !outcome.DropFailed? ==> users == [] && challenges == [] && !proceduresInstalled
    {
      match outcome {
        case Recreated =>
          users, challenges := [], [];
          schemaInstalled, proceduresInstalled := true, false;
        case DropFailed(_) =>
        case CreateFailed(_) =>
          users, challenges := [], [];
          schemaInstalled, proceduresInstalled := false, false;
        case ScriptFailed(_) =>
          users, challenges := [], [];
          schemaInstalled, proceduresInstalled := false, false;
      }
      ok := outcome.Recreated?;
    }

    /** `db_create_procedures`: one script, committed as a whole or not at all. */
    method CreateProcedures(outcome: DbOutcome) returns (result: DbOutcome)
      modifies this
      ensures result == outcome
      ensures State() == InstallProcedures(old(State()), outcome)
    {
      if outcome.Committed? {
        proceduresInstalled := true;
      }
      result := outcome;
    }

    /** `db_add_user`: one INSERT of the account row, with the password
        replaced by its hash, committed on its own. Exactly one row is
        appended when the server commits; nothing changes otherwise. */
    method AddUser(name: string, surname: string, nickname: Option<string>, mail: string,
                   affiliation: Option<string>, password: string,
                   hashpw: string -> string, outcome: DbOutcome,
                   admin: bool := false, hidden: bool := false, teamId: Option<int> := None)
      returns (result: DbOutcome)
      modifies this
      ensures result == outcome
      ensures State() == InsertUser(old(State()),
        AccountRow(name, surname, nickname, mail, affiliation, password, hashpw, admin, hidden, teamId),
        outcome)
      ensures users == if outcome.Committed?
        then old(users) + [UserRow(teamId, name, surname, nickname, mail, affiliation,
                                   hashpw(password), admin, hidden)]
        else old(users)
      ensures challenges == old(challenges)
    {
      var row := AccountRow(name, surname, nickname, mail, affiliation, password, hashpw,
                            admin, hidden, teamId);
      if outcome.Committed? {
        users := users + [row];
      }
      result := outcome;
    }

    /** `db_add_admin`: `db_add_user` with admin and hidden forced on and no team. */
    method AddAdmin(name: string, surname: string, nickname: Option<string>, mail: string,
                    affiliation: Option<string>, password: string,
                    hashpw: string -> string, outcome: DbOutcome)
      returns (result: DbOutcome)
      modifies this
      ensures result == outcome
      ensures State() == InsertUser(old(State()),
        AdminRow(name, surname, nickname, mail, affiliation, password, hashpw), outcome)
      ensures outcome.Committed? ==>
        |users| > 0 && users[|users| - 1].admin && users[|users| - 1].hidden
        && users[|users| - 1].teamId == None
      ensures AdminsHidden(old(users)) ==> AdminsHidden(users)
    {
      result := AddUser(name, surname, nickname, mail, affiliation, password, hashpw, outcome,
                        admin := true, hidden := true);
    }

    /** `imp`: the records in file order, one `db_add_user` each, stopping at
        the first record that is too short or whose insert is rejected. */
    method ImportUsers(records: seq<seq<string>>, hashpw: string -> string,
                       outcome: nat -> DbOutcome)
      returns (report: ImportReport)
      modifies this
      ensures (State(), report) == ImportFrom(old(State()), records, hashpw, outcome, 0)
      ensures var k := StopIndex(records, outcome, 0);
        && users == old(users) + Rows(records[..k], hashpw)
        && report == if k == |records| then AllImported(|records|)
                     else StoppedAt(k, StopReason(records, outcome, k))
      ensures challenges == old(challenges)
      ensures AdminsHidden(old(users)) ==> AdminsHidden(users)
    {
      ghost var start := State();
      var i := 0;
      while i < |records|
        invariant 0 <= i <= |records|
        invariant ImportFrom(start, records, hashpw, outcome, 0)
               == ImportFrom(State(), records, hashpw, outcome, i)
      {
        var record := records[i];
        if |record| < RecordFields {
          report := StoppedAt(i, MalformedRecord);
          CloseForm(start, records, hashpw, outcome);
          return;
        }
        ghost var before := State();
        var result := AddUser(record[0], record[1], None, record[3], Some(record[4]), record[5],
                              hashpw, outcome(i));
        if result.Rejected? {
          report := StoppedAt(i, InsertRejected(result.error));
          assert ImportFrom(before, records, hashpw, outcome, i) == (State(), report);
          CloseForm(start, records, hashpw, outcome);
          return;
        }
        i := i + 1;
      }
      report := AllImported(|records|);
      CloseForm(start, records, hashpw, outcome);
    }

    /** `imp_chal`: build the description, then one autocommitted INSERT of
        the challenge row. */
    method ImportChallenge(info: ChallengeInfo, folder: string, outcome: DbOutcome)
      returns (result: DbOutcome)
      modifies this
      ensures result == outcome
      ensures State() == InsertChallenge(old(State()), ChallengeRowOf(info, folder), outcome)
      ensures AllInert(old(challenges)) ==> AllInert(challenges)
    {
      var description := BuildDescription(info.description, info.publicFiles, folder);
      var row := ChallengeRow(info.title, description, info.flag, info.points,
                              JoinTags(info.tags), false, true, false);
      if outcome.Committed? {
        challenges := challenges + [row];
      }
      result := outcome;
    }

    /** `init`, up to the administrator insert: confirm, reset the schema,
        install the procedures, settle the password, add the administrator.
        The first step that fails ends the run. */
    method Initialise(answer: string, admin: AdminInput, hashpw: string -> string, env: InitEnv)
      returns (status: InitStatus)
      modifies this
      ensures (State(), status) == InitRun(old(State()), answer, admin, hashpw, env)
    {
      if !Confirmed(answer) {
        return Declined;
      }
      var reset := CreateSchema(env.reset);
      if !reset {
        return StepFailed(ResetSchemaStep, ResetError(env.reset));
      }
      var procedures := CreateProcedures(env.procedures);
      if procedures.Rejected? {
        return StepFailed(InstallProceduresStep, procedures.error);
      }
      var password := ChosenPassword(admin.password);
      if password.None? {
        return PasswordMismatch;
      }
      var inserted := AddAdmin(admin.name, admin.surname, Some(admin.nickname), admin.mail, None,
                               password.value, hashpw, env.insert);
      if inserted.Rejected? {
        return StepFailed(AddAdminStep, inserted.error);
      }
      status := Initialised;
    }
  }

  /** The import's result in closed form, for the method above. */
  lemma CloseForm(s: DbState, records: seq<seq<string>>, hashpw: string -> string,
                  outcome: nat -> DbOutcome)
    ensures var k := StopIndex(records, outcome, 0);
      ImportFrom(s, records, hashpw, outcome, 0).0.users == s.users + Rows(records[..k], hashpw)
    ensures var k := StopIndex(records, outcome, 0);
      ImportFrom(s, records, hashpw, outcome, 0).1
        == if k == |records| then AllImported(|records|) else StoppedAt(k, StopReason(records, outcome, k))
    ensures ImportFrom(s, records, hashpw, outcome, 0).0.challenges == s.challenges
    ensures AdminsHidden(s.users) ==> AdminsHidden(ImportFrom(s, records, hashpw, outcome, 0).0.users)
  {
    ImportFailFast(s, records, hashpw, outcome, 0);
    var k := StopIndex(records, outcome, 0);
    assert records[0..k] == records[..k];
    ImportAddsOnlyPlainAccounts(s, records, hashpw, outcome);
  }
}
