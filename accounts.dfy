/** `db_add_user` / `db_add_admin`: the row one account insert binds
    (ctforge/scripts/ctforge.py:59-71). */
module Accounts {
  import opened Outcomes

  /** The values bound to the users INSERT, in its column order:
      (team_id, name, surname, nickname, mail, affiliation, password, admin, hidden).
      `password` holds the hash of the secret, never the secret. */
  datatype UserRow = UserRow(
    teamId: Option<int>,
    name: string,
    surname: string,
    nickname: Option<string>,
    mail: string,
    affiliation: Option<string>,
    password: string,
    admin: bool,
    hidden: bool)

  /** The row of one `db_add_user` call. `hashpw` stands for the password
      hasher; nothing is assumed about what it returns. */
  function AccountRow(name: string, surname: string, nickname: Option<string>, mail: string,
                      affiliation: Option<string>, password: string, hashpw: string -> string,
                      admin: bool, hidden: bool, teamId: Option<int>): UserRow
  {
    UserRow(teamId, name, surname, nickname, mail, affiliation, hashpw(password), admin, hidden)
  }

  /** The row of one `db_add_admin` call: administrator, hidden from public
      listings, no team; the other arguments are passed through. */
  function AdminRow(name: string, surname: string, nickname: Option<string>, mail: string,
                    affiliation: Option<string>, password: string, hashpw: string -> string): (row: UserRow)
    ensures row.admin && row.hidden && row.teamId == None
    ensures row.name == name && row.surname == surname && row.nickname == nickname
    ensures row.mail == mail && row.affiliation == affiliation && row.password == hashpw(password)
  {
    AccountRow(name, surname, nickname, mail, affiliation, password, hashpw, true, true, None)
  }

  /** No account this core creates is a visible administrator. */
  predicate AdminsHidden(users: seq<UserRow>) {
    forall k :: 0 <= k < |users| ==> users[k].admin ==> users[k].hidden
  }
}
