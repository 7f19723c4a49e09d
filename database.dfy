/** The relational store as the provisioning core sees it, and what each of
    its statements does to it. */
module Database {
  import opened Outcomes
  import opened Accounts
  import opened Challenges

  /** The target database: its two tables, and whether the baseline schema
      and the stored procedures are installed. */
  datatype DbState = DbState(
    users: seq<UserRow>,
    challenges: seq<ChallengeRow>,
    schema: bool,
    procedures: bool)

  /** How `db_create_schema` ends. DROP and CREATE run in autocommit, one
      statement each; the schema script runs in one transaction. */
  datatype ResetOutcome =
    | Recreated
    | DropFailed(error: DbError)     // nothing was dropped
    | CreateFailed(error: DbError)   // the old database is gone, no new one
    | ScriptFailed(error: DbError)   // a new, empty database without the schema

  /** The error a failed reset reports. */
  function ResetError(outcome: ResetOutcome): DbError
    requires !outcome.Recreated?
  {
    outcome.error
  }

  /** `db_create_schema`. */
  function ResetSchema(s: DbState, outcome: ResetOutcome): DbState {
    match outcome
    case Recreated => DbState([], [], true, false)
    case DropFailed(_) => s
    case CreateFailed(_) => DbState([], [], false, false)
    case ScriptFailed(_) => DbState([], [], false, false)
  }

  /** `db_create_procedures`: one script, one transaction. */
  function InstallProcedures(s: DbState, outcome: DbOutcome): DbState {
    if outcome.Committed? then s.(procedures := true) else s
  }

  /** One users INSERT, committed on its own. */
  function InsertUser(s: DbState, row: UserRow, outcome: DbOutcome): DbState {
    if outcome.Committed? then s.(users := s.users + [row]) else s
  }

  /** One challenges INSERT, in autocommit. */
  function InsertChallenge(s: DbState, row: ChallengeRow, outcome: DbOutcome): DbState {
    if outcome.Committed? then s.(challenges := s.challenges + [row]) else s
  }

  /** Every way the reset can end leaves no old account or challenge behind
      unless the DROP itself failed, and never a half-installed schema:
      either the schema is there with no procedures, or it is absent. */
  lemma ResetSchemaEffect(s: DbState, outcome: ResetOutcome)
    ensures var s' := ResetSchema(s, outcome);
      && (outcome.DropFailed? ==> s' == s)
      && (!outcome.DropFailed? ==> s'.users == [] && s'.challenges == [] && !s'.procedures)
      && (!outcome.DropFailed? ==> (s'.schema <==> outcome.Recreated?))
  {
  }
}
