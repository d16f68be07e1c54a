/** AccountManager itself: the vector, counter and blacklist it updates in place, and the rows it writes through to. */
module AccountManagers {
  import opened Common
  import opened Decimal
  import opened OrgManagers
  import opened Accounts

  class AccountManager {
    var accounts: seq<AccountInfo>
    var nextId: int
    var invalidated: seq<string>
    var rows: map<int, AccountInfo>
    const orgMgr: OrgManager
    /** hash_password, whatever it computes. */
    const hashOf: string -> string

    function Store(): AccountStore
      reads this
    {
      AccountStore(accounts, nextId, invalidated, rows)
    }

    /** A new process on an existing table: `listing` is what list_accounts_db returns. */
    constructor Load(orgMgr: OrgManager, hashOf: string -> string, rows: map<int, AccountInfo>,
                     listing: seq<AccountInfo>)
      ensures Store() == ReloadedAccounts(AccountStore([], 1, [], rows), listing)
      ensures this.orgMgr == orgMgr && this.hashOf == hashOf
    {
      accounts, nextId, invalidated := [], 1, [];
      this.orgMgr, this.hashOf, this.rows := orgMgr, hashOf, rows;
      new;
      if listing != [] {
        var maxId := 0;
        for i := 0 to |listing|
          invariant accounts == listing[..i] && maxId == MaxAccountId(listing[..i])
          invariant invalidated == [] && this.rows == rows
        {
          ListingGrows(listing, i);
          accounts := accounts + [listing[i]];
          if listing[i].accountId > maxId {
            maxId := listing[i].accountId;
          }
        }
        assert listing[..|listing|] == listing;
        nextId := maxId + 1;
      }
    }

    static lemma ListingGrows(listing: seq<AccountInfo>, i: nat)
      requires i < |listing|
      ensures listing[..i + 1] == listing[..i] + [listing[i]]
      ensures var m, id := MaxAccountId(listing[..i]), listing[i].accountId;
        MaxAccountId(listing[..i + 1]) == if id > m then id else m
    {
      assert listing[..i + 1][..i] == listing[..i];
    }

    method FindById(id: int) returns (i: nat)
      ensures i == ById(accounts, id)
    {
      i := 0;
      while i < |accounts| && accounts[i].accountId != id
        invariant 0 <= i <= |accounts| && forall j :: 0 <= j < i ==> accounts[j].accountId != id
      {
        i := i + 1;
      }
    }

    method FindByName(name: string) returns (i: nat)
      ensures i == ByName(accounts, name)
    {
      i := 0;
      while i < |accounts| && accounts[i].username != name
        invariant 0 <= i <= |accounts| && forall j :: 0 <= j < i ==> accounts[j].username != name
      {
        i := i + 1;
      }
    }

    method CreateOne(info: AccountInfo, password: string, now: string) returns (status: StatusCode)
      modifies this
      ensures status == Accounts.CreateStatus(old(Store()), orgMgr.orgs, info)
      ensures Store() == CreateAccount(old(Store()), orgMgr.orgs, info, hashOf(password), now)
    {
      var taken := FindByName(info.username);
      if taken < |accounts| {
        return ACCOUNT_DUPLICATE;
      }
      var k := orgMgr.FindIndex(info.orgId);
      if k == |orgMgr.orgs| {
        return ORG_NOT_FOUND;
      }
      if info.roleCode !in VALID_ROLES {
        return ERROR;
      }
      var a := info.(accountId := nextId);
      nextId := nextId + 1;
      a := a.(passwordHash := hashOf(password), createdAt := now, updatedAt := now, isActive := true);
      a := a.(orgName := orgMgr.orgs[k].orgName);
      accounts := accounts + [a];
      rows := rows[a.accountId := a];
      return OK;
    }

    method UpdateOne(id: int, info: AccountInfo, now: string) returns (status: StatusCode)
      modifies this
      ensures status == if ById(old(accounts), id) < |old(accounts)| then OK else ACCOUNT_NOT_FOUND
      ensures Store() == UpdateAccount(old(Store()), id, info, now)
    {
      var i := FindById(id);
      if i == |accounts| {
        return ACCOUNT_NOT_FOUND;
      }
      var a := accounts[i];
      if info.displayName != "" { a := a.(displayName := info.displayName); }
      if info.email != "" { a := a.(email := info.email); }
      if info.phone != "" { a := a.(phone := info.phone); }
      if info.roleCode != "" { a := a.(roleCode := info.roleCode); }
      a := a.(isActive := info.isActive, updatedAt := now);
      accounts := accounts[i := a];
      rows := UpdateAccountRow(rows, a);
      return OK;
    }

    method DeleteOne(id: int) returns (status: StatusCode)
      modifies this
      ensures status == if ById(old(accounts), id) < |old(accounts)| then OK else ACCOUNT_NOT_FOUND
      ensures Store() == DeleteAccount(old(Store()), id)
    {
      var i := FindById(id);
      if i == |accounts| {
        return ACCOUNT_NOT_FOUND;
      }
      accounts := accounts[i := accounts[i].(isActive := false)];
      rows := UpdateAccountRow(rows, accounts[i]);
      return OK;
    }

    method ChangePasswordOf(id: int, oldPassword: string, newPassword: string) returns (status: StatusCode)
      modifies this
      ensures var i := ById(old(accounts), id);
        status == if i == |old(accounts)| then ACCOUNT_NOT_FOUND
                  else if old(accounts)[i].passwordHash != hashOf(oldPassword) then ACCOUNT_BAD_PASSWORD else OK
      ensures Store() == ChangePassword(old(Store()), id, hashOf(oldPassword), hashOf(newPassword))
    {
      var i := FindById(id);
      if i == |accounts| {
        return ACCOUNT_NOT_FOUND;
      }
      if accounts[i].passwordHash != hashOf(oldPassword) {
        return ACCOUNT_BAD_PASSWORD;
      }
      accounts := accounts[i := accounts[i].(passwordHash := hashOf(newPassword))];
      return OK;
    }

    method LogInWith(name: string, password: string, now: int, stamp: string)
      returns (status: StatusCode, token: string)
      modifies this
      ensures status == LoginStatus(old(Store()), name, hashOf(password))
      ensures UniqueNames(old(accounts)) ==> LoginAnswers(status, old(accounts), name, hashOf(password))
      ensures status == OK ==> token == LoginToken(old(Store()), name, hashOf(password), now)
      ensures Store() == Login(old(Store()), name, hashOf(password), stamp)
    {
      token := "";
      if UniqueNames(accounts) {
        LoginOutcomes(Store(), name, hashOf(password));
      }
      var i := FindByName(name);
      if i == |accounts| {
        return ACCOUNT_NOT_FOUND, token;
      }
      if !accounts[i].isActive {
        return ACCOUNT_LOCKED, token;
      }
      if accounts[i].passwordHash != hashOf(password) {
        return ACCOUNT_BAD_PASSWORD, token;
      }
      token := TOKEN_PREFIX + (IntToString(accounts[i].accountId) + (":" + IntToString(now + TOKEN_LIFETIME)));
      var k := FindById(accounts[i].accountId);
      if k < |accounts| {
        accounts := accounts[k := accounts[k].(lastLoginAt := stamp)];
      }
      return OK, token;
    }

    method LogOutToken(token: string)
      modifies this
      ensures Store() == old(Store()).(invalidated := old(invalidated) + [token])
    {
      invalidated := invalidated + [token];
    }

    method Verify(token: string, now: int) returns (verdict: Verdict)
      ensures verdict == VerifyToken(Store(), orgMgr.orgs, token, now)
    {
      if token in invalidated || !(TOKEN_PREFIX <= token) {
        return Rejected;
      }
      var payload := token[|TOKEN_PREFIX|..];
      var colon := IndexOfChar(payload, ':');
      if colon == |payload| {
        return Rejected;
      }
      var id := ParseInt(payload[..colon], -INT32_MAX - 1, INT32_MAX);
      var exp := ParseInt(payload[colon + 1..], -INT64_MAX - 1, INT64_MAX);
      assert TOKEN_PREFIX <= token && ReadToken(token) ==
        if id.None? || exp.None? then Unreadable else Fields(id.value, exp.value);
      if id.None? || exp.None? {
        return Throws;
      }
      if now > exp.value {
        return Rejected;
      }
      var i := FindById(id.value);
      if i == |accounts| || !accounts[i].isActive {
        return Rejected;
      }
      var a := accounts[i];
      var scope := orgMgr.GetOrgScope(a.orgId);
      return Accepted(TokenPayload(a.accountId, a.username, a.orgId, scope, a.roleCode,
                                   PermissionsFor(a.roleCode), now, exp.value));
    }
  }
}
