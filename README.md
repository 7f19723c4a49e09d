# CTForge provisioning core, in Dafny

This project models the provisioning core of CTForge's command-line script
(`ctforge/scripts/ctforge.py`). This is the code that sets up a CTF platform's
database and loads rows into it:

- **Challenge import** (`imp_chal`). It turns a challenge descriptor into one
  `challenges` row. When the descriptor lists public files, the description gets
  an HTML list with one `<li><a href="join(folder, f)">f</a></li>` per file. The
  tags are joined with `/`. The row is always inactive, hidden and without a
  writeup.
- **Account rows** (`db_add_user`, `db_add_admin`). Each call inserts one
  `users` row, with the columns in the INSERT's order and the password replaced
  by its hash. The administrator variant forces `admin` and `hidden` on.
- **Bulk user import** (`imp`). It is a sequential, fail-fast pipeline over
  already-split CSV records. Each record commits on its own. The first record
  that is too short or whose insert is rejected stops the import. The rows
  committed before it stay.
- **Initialisation** (`init`). The steps run in order: confirm (`exit_on_resp`
  accepts only `y` or `Y`), reset the schema, install the procedures, settle the
  administrator's password, add the administrator.

Layout, one module per component:

| file | module | contents |
|---|---|---|
| outcomes.dfy | `Outcomes` | `Option`, the server's answer to a statement (`DbOutcome`), the error kinds |
| posix_path.dfy | `PosixPath` | two-component `os.path.join` with POSIX semantics |
| challenges.dfy | `Challenges` | descriptor and row datatypes, the rendered description, the tag string, the description-building loop |
| accounts.dfy | `Accounts` | the users row and the rows of `db_add_user` / `db_add_admin` |
| database.dfy | `Database` | the store as a value (`DbState`) and what each statement does to it |
| user_import.dfy | `UserImport` | the import loop as a function, its first failing record, its closed form |
| setup.dfy | `Setup` | `exit_on_resp`, the password prompt and `init` as a transition of the store |
| provisioning.dfy | `Provisioning` | class `Store`: the commands as methods that update the tables in place |

The class `Store` holds the two tables and two installation flags as fields.
Each of its methods is proved against a function of the old state (for example,
`(State(), report) == ImportFrom(old(State()), …)`). The lemmas state what the
source promises about those functions.

Outside influences are parameters:

- The server's answer to each statement (`DbOutcome`, `ResetOutcome`). For the
  bulk import this is a function `outcome: nat -> DbOutcome` that gives the
  answer to the insert of record `j`.
- The password hasher, `hashpw: string -> string`. Nothing is assumed about its
  output.
- The operator's answer to the confirmation prompt.

Behaviour of the code worth knowing:

- The `--users` help text (ctforge/scripts/ctforge.py:196) names six columns.
  `imp` indexes fields 0–5 and ignores any further ones, so a record with *at
  least* six fields is accepted, and one with fewer stops the import.
- `imp` returns nothing, and an exception ends it. The model returns a report
  (`AllImported(count)` or `StoppedAt(index, reason)`) in place of the
  exception and of the silent end.
- `init` checks that the two typed passwords match only *after* it has reset
  the database and installed the procedures. So a mismatch leaves a freshly
  emptied database with no administrator (`Setup.MismatchAfterReset`).
- A user record's nickname field is always dropped. The import stores
  `nickname = None` whatever field 2 holds.

## Model

| member | source | states |
|---|---|---|
| `PosixPath.JoinLayout` | ctforge/scripts/ctforge.py:164-165 | the href is `os.path.join(folder, f)`: an absolute `f` replaces the folder; otherwise folder, then one separator only if the folder is non-empty and does not end in `/`, then `f`; the result always ends in `f` |
| `PosixPath.JoinNoDoubledSeparator` | ctforge/scripts/ctforge.py:165 | with the default folder form (trailing `/`) and a relative file the two are concatenated with no second separator |
| `Challenges.BuildDescription` | ctforge/scripts/ctforge.py:160-166 | the `+=` loop over `public_files` produces exactly the rendered description (original text, plus header, links and footer when the list is non-empty) |
| `Challenges.FileLinksSnoc` | ctforge/scripts/ctforge.py:163-165 | each loop iteration appends exactly the link of its file |
| `Challenges.RenderedDescriptionLayout` | ctforge/scripts/ctforge.py:160-166 | empty file list: description unchanged; otherwise it starts with the description and `<br><br><p><b>Public Files:</b></p><ul>`, holds exactly one `<li><a href=…>f</a></li>` per file in list order and back to back, and ends with `</ul>` right after the last link |
| `Challenges.LinkStored` | ctforge/scripts/ctforge.py:163-165 | the link of file `i` sits at the offset after the header and the links of files 0..i-1, and the next link starts right after it |
| `Challenges.WriteupExample` | ctforge/scripts/ctforge.py:161-166 | with `public_files = ["writeup.pdf"]` and folder `/data/public_files/` the description ends in one list item linking `/data/public_files/writeup.pdf` with text `writeup.pdf` |
| `Challenges.SplitJoinTags` | ctforge/scripts/ctforge.py:170 | `'/'.join(tags)` read back with `split('/')` gives the tags again, in order, when the list is non-empty and no tag contains `/` |
| `Challenges.JoinTagsSmall` | ctforge/scripts/ctforge.py:170 | no tags are stored as `""`; one tag is stored as itself, with no `/` |
| `Challenges.JoinTagsSeparators` | ctforge/scripts/ctforge.py:170 | a non-empty list of slash-free tags is stored with exactly one `/` fewer than there are tags, and splits back into exactly as many pieces |
| `Challenges.ChallengeRowOf` | ctforge/scripts/ctforge.py:167-171 | every imported row has active=false, hidden=true, writeup=false whatever the descriptor says; name, flag and points are the title, flag and points; tags are the `/`-join; description is the rendered one |
| `Accounts.AdminRow` | ctforge/scripts/ctforge.py:59-60 | the administrator row has admin=true, hidden=true, team_id=None and passes the other fields through, with the password hashed |
| `Database.ResetSchemaEffect` | ctforge/scripts/ctforge.py:38-50 | a failed DROP changes nothing; any other end leaves no old account or challenge and no procedures, and the schema is present exactly when the whole reset succeeded |
| `UserImport.RecordRow` | ctforge/scripts/ctforge.py:149 | a record becomes a non-admin, visible, team-less row with name=r[0], surname=r[1], mail=r[3], affiliation=r[4], password=hash(r[5]) and nickname None |
| `UserImport.NicknameIgnored` | ctforge/scripts/ctforge.py:149 | two records that differ only in the nickname field give rows equal in every column but the password, whose two values hash the same secret |
| `UserImport.Rows` | ctforge/scripts/ctforge.py:146-149 | the rows of a run of records: one per record, the i-th being the row of the i-th record |
| `UserImport.StopIndex` | ctforge/scripts/ctforge.py:146-149 | the first record that stops the import: every earlier record has at least six fields and was committed, and it is short or rejected (or there is none) |
| `UserImport.ImportStepCommitted` | ctforge/scripts/ctforge.py:146-149 | a committed record hands the loop on to the next record with its row appended |
| `UserImport.ImportFailFast` | ctforge/scripts/ctforge.py:146-149 | closed form of the loop: the users table gains exactly the rows of the records before the first failing one, nothing else changes, and the report names that record and why, or the number imported |
| `UserImport.ImportAllSucceed` | ctforge/scripts/ctforge.py:146-149 | if every record succeeds, the table grows by exactly one row per record, in file order |
| `UserImport.ImportStopsAtFailure` | ctforge/scripts/ctforge.py:146-149 | if record i fails, the rows of records 0..i-1 remain, no row is added for i or later, and the other tables and flags are untouched |
| `UserImport.ImportAddsOnlyPlainAccounts` | ctforge/scripts/ctforge.py:149 | the import keeps the existing rows as a prefix and every row it adds is non-admin, visible, team-less and nickname-less |
| `UserImport.ThreeRecordsSecondRejected` | ctforge/scripts/ctforge.py:146-149 | three records with the second breaking a uniqueness constraint: exactly one account is inserted and the report names record 1 |
| `Setup.DeclineChangesNothing` | ctforge/scripts/ctforge.py:73-76 | any answer but `y`/`Y` ends `init` before it touches the store |
| `Setup.InitialisedExactly` | ctforge/scripts/ctforge.py:86-117 | `init` succeeds exactly when confirmed, every step commits and the password is settled; the store then holds schema, procedures, no challenge and only the hidden, team-less administrator |
| `Setup.InitStepOrder` | ctforge/scripts/ctforge.py:94-117 | confirm, reset, procedures, admin run in that order: a failed DROP changes nothing; otherwise old rows are gone, procedures imply schema, and an account implies both and success |
| `Setup.MismatchAfterReset` | ctforge/scripts/ctforge.py:106-111 | two different typed passwords abort after the reset and the procedures, leaving an empty store with no administrator |
| `Provisioning.Store.CreateSchema` | ctforge/scripts/ctforge.py:38-50 | the store after `db_create_schema` is the reset of the old one for the server's answer |
| `Provisioning.Store.CreateProcedures` | ctforge/scripts/ctforge.py:52-57 | procedures are installed exactly when the script commits; nothing else changes |
| `Provisioning.Store.AddUser` | ctforge/scripts/ctforge.py:62-71 | a committed call appends exactly one row (team_id, name, surname, nickname, mail, affiliation, hash(password), admin, hidden) with defaults admin=false, hidden=false, team_id=None; a rejected one changes nothing; challenges untouched |
| `Provisioning.Store.AddAdmin` | ctforge/scripts/ctforge.py:59-60 | the appended row is an administrator, hidden, with no team; "every administrator is hidden" is preserved |
| `Provisioning.Store.ImportUsers` | ctforge/scripts/ctforge.py:142-151 | the loop's new state and report equal the import function's, and in closed form the rows of the records before the first failure are appended; challenges untouched |
| `Provisioning.Store.ImportChallenge` | ctforge/scripts/ctforge.py:153-173 | a committed insert appends the derived challenge row; "no challenge is live" is preserved |
| `Provisioning.Store.Initialise` | ctforge/scripts/ctforge.py:86-117 | the store and status after `init` are those of the `init` transition for the same answer, inputs and server answers |

## Left out

- Database connections, autocommit, commit and close. Each statement is one
  step with an abstract answer from the server.
- The text of `db/schema.sql` and `db/procedures.sql` and the constraints they
  enforce. These files are not part of this model. A rejected insert is an
  abstract `Rejected(error)`, and it is not tied to whether the tables exist.
- The `DROP DATABASE` / `CREATE DATABASE` statements and the database name. The
  reset clears the abstract store.
- bcrypt. The hasher is an arbitrary function parameter. Its fresh random salt
  is not modelled, so within the model the same secret always hashes the same
  way. A hashing failure appears only as an abstract rejected insert.
- The type of the secret handed to bcrypt. `db_add_user` passes a `str` (a CSV
  field, or the argparse/`getpass` string) to `bcrypt.hashpw`; a bcrypt that
  accepts only bytes would raise there, before the INSERT, on every call. The
  model can express that only as the server answer `Rejected(HashingError)`,
  and it does not claim which bcrypt is deployed.
- CSV tokenising and JSON parsing. Records are `seq<seq<string>>` and the
  descriptor is a datatype. A missing JSON key, a non-string tag or file name,
  and a non-integer `points` are not modelled.
- Prompts, `getpass`, `input`, `print` and the per-record progress output.
- Also left out: the "Save configuration" question and the config-file copy,
  log directory and log file creation, `run`/`app.run`, and
  `parse_args`/`main` dispatch, including the `if args.users` check. These
  are input/output wrappers. `init` is modelled up to the administrator insert.
- Process exit codes. Python exceptions and `sys.exit(1)` become status values
  (`InitStatus`, `ImportReport`, `DbOutcome`).
- HTML escaping. The source does none, and the model assumes none.
