/** `imp`: the sequential, fail-fast import of already-split CSV records
    (ctforge/scripts/ctforge.py:142-151). */
module UserImport {
  import opened Outcomes
  import opened Accounts
  import opened Database

  /** `imp` reads fields 0 to 5 of each record. */
  const RecordFields: nat := 6

  datatype ImportError =
    | MalformedRecord            // fewer than six fields: the indexing fails
    | InsertRejected(error: DbError)

  datatype ImportReport =
    | AllImported(count: nat)
    | StoppedAt(index: nat, reason: ImportError)

  /** The account a record becomes: name, surname, mail, affiliation and
      password from fields 0, 1, 3, 4 and 5; the nickname field is dropped;
      never an administrator, never hidden, no team. */
  function RecordRow(record: seq<string>, hashpw: string -> string): (row: UserRow)
    requires |record| >= RecordFields
    ensures row.nickname == None && row.teamId == None && !row.admin && !row.hidden
    ensures row.name == record[0] && row.surname == record[1] && row.mail == record[3]
    ensures row.affiliation == Some(record[4]) && row.password == hashpw(record[5])
  {
    AccountRow(record[0], record[1], None, record[3], Some(record[4]), record[5], hashpw,
               false, false, None)
  }

  /** Whatever the nickname field holds, it does not reach the row: every
      column but the password is the same, and the two passwords are hashes
      of the same secret. (bcrypt draws a fresh salt per call, so the stored
      hashes themselves may differ; `hashpw` does not model the salt.) */
  lemma NicknameIgnored(r1: seq<string>, r2: seq<string>, hashpw: string -> string)
    requires |r1| >= RecordFields && |r2| >= RecordFields
    requires forall k :: 0 <= k < RecordFields && k != 2 ==> r1[k] == r2[k]
    ensures var row1, row2 := RecordRow(r1, hashpw), RecordRow(r2, hashpw);
      row1.(password := "") == row2.(password := "")
  {
  }

  /** The rows of a run of records that all have six fields or more. */
  function Rows(records: seq<seq<string>>, hashpw: string -> string): (rows: seq<UserRow>)
    requires forall j :: 0 <= j < |records| ==> |records[j]| >= RecordFields
    ensures |rows| == |records|
    ensures forall j :: 0 <= j < |records| ==> rows[j] == RecordRow(records[j], hashpw)
  {
    if records == [] then [] else [RecordRow(records[0], hashpw)] + Rows(records[1..], hashpw)
  }

  /** The rows of a run are the row of its first record followed by the rows of the rest. */
  lemma RowsCons(records: seq<seq<string>>, hashpw: string -> string)
    requires records != []
    requires forall j :: 0 <= j < |records| ==> |records[j]| >= RecordFields
    ensures Rows(records, hashpw) == [RecordRow(records[0], hashpw)] + Rows(records[1..], hashpw)
  {
  }

  /** The loop of `imp` from record `i` on, against store `s`; `outcome(j)`
      is the server's answer to the insert of record `j`. */
  function ImportFrom(s: DbState, records: seq<seq<string>>, hashpw: string -> string,
                      outcome: nat -> DbOutcome, i: nat): (DbState, ImportReport)
    requires i <= |records|
    decreases |records| - i
  {
    if i == |records| then (s, AllImported(|records|))
    else if |records[i]| < RecordFields then (s, StoppedAt(i, MalformedRecord))
    else
      var s' := InsertUser(s, RecordRow(records[i], hashpw), outcome(i));
      if outcome(i).Rejected? then (s', StoppedAt(i, InsertRejected(outcome(i).error)))
      else ImportFrom(s', records, hashpw, outcome, i + 1)
  }

  /** The first record, from `from` on, that stops the import, or the number
      of records when none does: every record before it has six fields and
      was committed, and it itself is short or was rejected. */
  function StopIndex(records: seq<seq<string>>, outcome: nat -> DbOutcome, from: nat): (k: nat)
    requires from <= |records|
    ensures from <= k <= |records|
    ensures forall j :: from <= j < k ==> |records[j]| >= RecordFields && outcome(j).Committed?
    ensures k < |records| ==> |records[k]| < RecordFields || outcome(k).Rejected?
    decreases |records| - from
  {
    if from == |records| || |records[from]| < RecordFields || outcome(from).Rejected? then from
    else StopIndex(records, outcome, from + 1)
  }

  /** Why record `k` stopped the import. */
  function StopReason(records: seq<seq<string>>, outcome: nat -> DbOutcome, k: nat): ImportError
    requires k < |records|
    requires |records[k]| < RecordFields || outcome(k).Rejected?
  {
    if |records[k]| < RecordFields then MalformedRecord else InsertRejected(outcome(k).error)
  }

  /** A committed record hands the loop on to the next record, against the
      store with its row appended, and does not stop the import. */
  lemma ImportStepCommitted(s: DbState, records: seq<seq<string>>, hashpw: string -> string,
                            outcome: nat -> DbOutcome, i: nat)
    requires i < |records| && |records[i]| >= RecordFields && outcome(i).Committed?
    ensures StopIndex(records, outcome, i) == StopIndex(records, outcome, i + 1)
    ensures ImportFrom(s, records, hashpw, outcome, i)
         == ImportFrom(s.(users := s.users + [RecordRow(records[i], hashpw)]), records, hashpw, outcome, i + 1)
  {
  }

  lemma AppendAssociates(a: seq<UserRow>, b: seq<UserRow>, c: seq<UserRow>)
    ensures (a + b) + c == a + (b + c)
  {
  }

  /** Fail-fast, in closed form: the import keeps exactly the rows of the
      records before the first failing one, adds nothing for that record or
      any later one, touches nothing else, and reports where it stopped and
      why, or how many records it imported. */
  lemma {:induction false} ImportFailFast(s: DbState, records: seq<seq<string>>, hashpw: string -> string,
                                          outcome: nat -> DbOutcome, i: nat)
    requires i <= |records|
    ensures var k := StopIndex(records, outcome, i);
      ImportFrom(s, records, hashpw, outcome, i).0 == s.(users := s.users + Rows(records[i..k], hashpw))
    ensures var k := StopIndex(records, outcome, i);
      ImportFrom(s, records, hashpw, outcome, i).1
        == if k == |records| then AllImported(|records|) else StoppedAt(k, StopReason(records, outcome, k))
    decreases |records| - i
  {
    var k := StopIndex(records, outcome, i);
    if i == |records| || |records[i]| < RecordFields || outcome(i).Rejected? {
      assert k == i;
      assert records[i..k] == [];
    } else {
      var row := RecordRow(records[i], hashpw);
      var s1 := s.(users := s.users + [row]);
      ImportStepCommitted(s, records, hashpw, outcome, i);
      ImportFailFast(s1, records, hashpw, outcome, i + 1);
      var run := records[i..k];
      var tail := records[i + 1..k];
      assert forall j :: 0 <= j < |run| ==> |run[j]| >= RecordFields;
      assert forall j :: 0 <= j < |tail| ==> |tail[j]| >= RecordFields;
      assert Rows(run, hashpw) == [row] + Rows(tail, hashpw) by {
        RowsCons(run, hashpw);
        assert run[1..] == tail;
      }
      AppendAssociates(s.users, [row], Rows(tail, hashpw));
    }
  }

  /** When every record has six fields and every insert commits, the users
      table grows by exactly one row per record, in file order. */
  lemma ImportAllSucceed(s: DbState, records: seq<seq<string>>, hashpw: string -> string,
                         outcome: nat -> DbOutcome)
    requires forall j :: 0 <= j < |records| ==> |records[j]| >= RecordFields && outcome(j).Committed?
    ensures var (s', report) := ImportFrom(s, records, hashpw, outcome, 0);
      && report == AllImported(|records|)
      && |s'.users| == |s.users| + |records|
      && s'.users == s.users + Rows(records, hashpw)
  {
    ImportFailFast(s, records, hashpw, outcome, 0);
    assert records[0..|records|] == records;
  }

  /** When record `i` fails, the rows of records 0 to i-1 are there, in
      order, and nothing was added for record `i` or any later record. */
  lemma ImportStopsAtFailure(s: DbState, records: seq<seq<string>>, hashpw: string -> string,
                             outcome: nat -> DbOutcome, i: nat)
    requires i < |records|
    requires forall j :: 0 <= j < i ==> |records[j]| >= RecordFields && outcome(j).Committed?
    requires |records[i]| < RecordFields || outcome(i).Rejected?
    ensures var (s', report) := ImportFrom(s, records, hashpw, outcome, 0);
      && report == StoppedAt(i, StopReason(records, outcome, i))
      && s'.users == s.users + Rows(records[..i], hashpw)
      && |s'.users| == |s.users| + i
      && s'.challenges == s.challenges && s'.schema == s.schema && s'.procedures == s.procedures
  {
    ImportFailFast(s, records, hashpw, outcome, 0);
    assert records[0..i] == records[..i];
  }

  /** Every row the import adds is a plain, visible, team-less account. */
  lemma ImportAddsOnlyPlainAccounts(s: DbState, records: seq<seq<string>>, hashpw: string -> string,
                                    outcome: nat -> DbOutcome)
    ensures var s' := ImportFrom(s, records, hashpw, outcome, 0).0;
      && |s.users| <= |s'.users| && s'.users[..|s.users|] == s.users
      && forall j :: |s.users| <= j < |s'.users| ==>
           !s'.users[j].admin && !s'.users[j].hidden && s'.users[j].teamId == None
           && s'.users[j].nickname == None
  {
    ImportFailFast(s, records, hashpw, outcome, 0);
  }

  /** Three records whose second one breaks a uniqueness constraint: exactly
      one account is inserted and the report names record 1. */
  lemma ThreeRecordsSecondRejected(s: DbState, records: seq<seq<string>>, hashpw: string -> string)
    requires |records| == 3
    requires forall j :: 0 <= j < 3 ==> |records[j]| == RecordFields
    ensures var outcome := (j: nat) => if j == 1 then Rejected(ConstraintViolation) else Committed;
      var (s', report) := ImportFrom(s, records, hashpw, outcome, 0);
      && report == StoppedAt(1, InsertRejected(ConstraintViolation))
      && s'.users == s.users + [RecordRow(records[0], hashpw)]
  {
  }
}
