/** Accounts with their database rows, and login tokens, as values. */
module Accounts {
  import opened Common
  import opened Decimal
  import opened OrgForest
  import opened OrgQueries

  datatype AccountInfo = AccountInfo(
    accountId: int,
    username: string,
    passwordHash: string,
    displayName: string,
    orgId: int,
    orgName: string,
    roleCode: string,
    email: string,
    phone: string,
    isActive: bool,
    lastLoginAt: string,
    createdAt: string,
    updatedAt: string)

  /** accounts_, next_id_, the logout blacklist, and the accounts table keyed by account_id. */
  datatype AccountStore = AccountStore(
    accounts: seq<AccountInfo>, nextId: int, invalidated: seq<string>, rows: map<int, AccountInfo>)

  const TOKEN_LIFETIME: int := 86400
  const TOKEN_PREFIX := "mock_jwt:"
  const VALID_ROLES := ["super_admin", "org_admin", "dept_admin", "operator", "viewer"]

  function PermissionsFor(role: string): seq<string> {
    if role == "super_admin" then
      ["org:read", "org:write", "account:read", "account:write", "device:read", "device:write", "order:read",
       "recipe:read", "recipe:write", "ota:read", "ota:write", "fault:read", "fault:write",
       "config:read", "config:write"]
    else if role == "org_admin" then
      ["org:read", "org:write", "account:read", "account:write", "device:read", "device:write", "order:read",
       "recipe:read", "recipe:write", "ota:read", "ota:write", "fault:read", "fault:write", "config:read"]
    else if role == "dept_admin" then
      ["org:read", "account:read", "device:read", "device:write", "order:read", "recipe:read", "ota:read",
       "fault:read", "fault:write"]
    else if role == "operator" then
      ["device:read", "order:read", "recipe:read", "recipe:write", "ota:read", "fault:read", "fault:write"]
    else if role == "viewer" then ["device:read", "order:read", "recipe:read", "ota:read", "fault:read"]
    else []
  }

  // ---------------------------------------------------------------- lookups

  function ById(accounts: seq<AccountInfo>, id: int): (i: nat)
    ensures i <= |accounts|
    ensures i < |accounts| ==> accounts[i].accountId == id
    ensures forall j :: 0 <= j < i ==> accounts[j].accountId != id
  {
    if accounts == [] then 0 else if accounts[0].accountId == id then 0 else 1 + ById(accounts[1..], id)
  }

  function ByName(accounts: seq<AccountInfo>, name: string): (i: nat)
    ensures i <= |accounts|
    ensures i < |accounts| ==> accounts[i].username == name
    ensures forall j :: 0 <= j < i ==> accounts[j].username != name
  {
    if accounts == [] then 0 else if accounts[0].username == name then 0 else 1 + ByName(accounts[1..], name)
  }

  // ---------------------------------------------------------------- operations

  function CreateStatus(s: AccountStore, orgs: seq<OrgInfo>, info: AccountInfo): StatusCode {
    if ByName(s.accounts, info.username) < |s.accounts| then ACCOUNT_DUPLICATE
    else if !Exists(orgs, info.orgId) then ORG_NOT_FOUND
    else if info.roleCode !in VALID_ROLES then ERROR
    else OK
  }

  function CreateAccount(s: AccountStore, orgs: seq<OrgInfo>, info: AccountInfo, hash: string,
                         now: string): AccountStore {
    if CreateStatus(s, orgs, info) != OK then s
    else
      var org := orgs[IndexOf(orgs, info.orgId)];
      var a := info.(accountId := s.nextId, passwordHash := hash, createdAt := now, updatedAt := now,
                     isActive := true, orgName := org.orgName);
      s.(accounts := s.accounts + [a], nextId := s.nextId + 1, rows := s.rows[a.accountId := a])
  }

  function EditedAccount(a: AccountInfo, info: AccountInfo, now: string): AccountInfo {
    a.(displayName := if info.displayName != "" then info.displayName else a.displayName,
       email := if info.email != "" then info.email else a.email,
       phone := if info.phone != "" then info.phone else a.phone,
       roleCode := if info.roleCode != "" then info.roleCode else a.roleCode,
       isActive := info.isActive,
       updatedAt := now)
  }

  function ReplaceAccount(s: AccountStore, i: nat, a: AccountInfo): AccountStore
    requires i < |s.accounts|
  {
    s.(accounts := s.accounts[i := a])
  }

  /** update_account_db: name, hash, last login and creation time of the row stay; no row, no effect. */
  function UpdateAccountRow(rows: map<int, AccountInfo>, a: AccountInfo): map<int, AccountInfo> {
    if a.accountId !in rows then rows
    else
      var r := rows[a.accountId];
      rows[a.accountId := a.(username := r.username, passwordHash := r.passwordHash, lastLoginAt := r.lastLoginAt,
                             createdAt := r.createdAt)]
  }

  /** The entry changes in memory and in its row. */
  function SaveAccount(s: AccountStore, i: nat, a: AccountInfo): AccountStore
    requires i < |s.accounts|
  {
    ReplaceAccount(s, i, a).(rows := UpdateAccountRow(s.rows, a))
  }

  function UpdateAccount(s: AccountStore, id: int, info: AccountInfo, now: string): AccountStore {
    var i := ById(s.accounts, id);
    if i == |s.accounts| then s else SaveAccount(s, i, EditedAccount(s.accounts[i], info, now))
  }

  /** Deletion only deactivates. */
  function DeleteAccount(s: AccountStore, id: int): AccountStore {
    var i := ById(s.accounts, id);
    if i == |s.accounts| then s else SaveAccount(s, i, s.accounts[i].(isActive := false))
  }

  /** The new hash is not written to the row. */
  function ChangePassword(s: AccountStore, id: int, oldHash: string, newHash: string): AccountStore {
    var i := ById(s.accounts, id);
    if i == |s.accounts| || s.accounts[i].passwordHash != oldHash then s
    else ReplaceAccount(s, i, s.accounts[i].(passwordHash := newHash))
  }

  function MaxAccountId(accounts: seq<AccountInfo>): int {
    if accounts == [] then 0
    else
      var rest, last := MaxAccountId(accounts[..|accounts| - 1]), accounts[|accounts| - 1].accountId;
      if last > rest then last else rest
  }

  /** The largest id of the list, or 0. */
  lemma {:induction false} MaxAccountIdIsLargest(accounts: seq<AccountInfo>)
    ensures 0 <= MaxAccountId(accounts)
    ensures forall i :: 0 <= i < |accounts| ==> accounts[i].accountId <= MaxAccountId(accounts)
    ensures MaxAccountId(accounts) == 0 ||
            exists i :: 0 <= i < |accounts| && accounts[i].accountId == MaxAccountId(accounts)
  {
    if accounts != [] {
      MaxAccountIdIsLargest(accounts[..|accounts| - 1]);
    }
  }

  /** A new process: the listed rows, and an empty blacklist. */
  function ReloadedAccounts(s: AccountStore, listing: seq<AccountInfo>): AccountStore {
    AccountStore(listing, MaxAccountId(listing) + 1, [], s.rows)
  }

  predicate UniqueAccountIds(accounts: seq<AccountInfo>) {
    forall i, j :: 0 <= i < j < |accounts| ==> accounts[i].accountId != accounts[j].accountId
  }

  predicate UniqueNames(accounts: seq<AccountInfo>) {
    forall i, j :: 0 <= i < j < |accounts| ==> accounts[i].username != accounts[j].username
  }

  /** `listing` shows every row of the table once, in whatever order. */
  ghost predicate ListsAccounts(listing: seq<AccountInfo>, rows: map<int, AccountInfo>) {
    && UniqueAccountIds(listing)
    && (forall i :: 0 <= i < |listing| ==> listing[i].accountId in rows && rows[listing[i].accountId] == listing[i])
    && (forall id :: id in rows ==> ById(listing, id) < |listing|)
  }

  function Token(id: int, exp: int): string {
    TOKEN_PREFIX + (IntToString(id) + (":" + IntToString(exp)))
  }

  function LoginStatus(s: AccountStore, name: string, hash: string): StatusCode {
    var i := ByName(s.accounts, name);
    if i == |s.accounts| then ACCOUNT_NOT_FOUND
    else if !s.accounts[i].isActive then ACCOUNT_LOCKED
    else if s.accounts[i].passwordHash != hash then ACCOUNT_BAD_PASSWORD
    else OK
  }

  function Login(s: AccountStore, name: string, hash: string, stamp: string): AccountStore {
    if LoginStatus(s, name, hash) != OK then s
    else
      var k := ById(s.accounts, s.accounts[ByName(s.accounts, name)].accountId);
      if k == |s.accounts| then s else ReplaceAccount(s, k, s.accounts[k].(lastLoginAt := stamp))
  }

  function LoginToken(s: AccountStore, name: string, hash: string, now: int): string
    requires LoginStatus(s, name, hash) == OK
  {
    Token(s.accounts[ByName(s.accounts, name)].accountId, now + TOKEN_LIFETIME)
  }

  // ---------------------------------------------------------------- verification

  datatype TokenPayload = TokenPayload(
    accountId: int, username: string, orgId: int, orgScope: seq<int>, roleCode: string, permissions: seq<string>,
    iat: int, exp: int)

  /** Throws is an exception out of stoi or stoll. */
  datatype Verdict = Rejected | Throws | Accepted(payload: TokenPayload)

  function IndexOfChar(s: string, c: char): (i: nat)
    ensures i <= |s| && (i < |s| ==> s[i] == c) && forall j :: 0 <= j < i ==> s[j] != c
  {
    if s == [] then 0 else if s[0] == c then 0 else 1 + IndexOfChar(s[1..], c)
  }

  function PayloadFor(a: AccountInfo, orgs: seq<OrgInfo>, now: int, exp: int): TokenPayload {
    TokenPayload(a.accountId, a.username, a.orgId, Scope(orgs, a.orgId), a.roleCode, PermissionsFor(a.roleCode), now,
                 exp)
  }

  /** What a token's text says: not a token, numbers that do not parse, or account id and expiry. */
  datatype TokenText = NoToken | Unreadable | Fields(id: int, exp: int)

  function ReadToken(token: string): TokenText {
    if !(TOKEN_PREFIX <= token) then NoToken
    else
      var payload := token[|TOKEN_PREFIX|..];
      var colon := IndexOfChar(payload, ':');
      if colon == |payload| then NoToken
      else
        var id := ParseInt(payload[..colon], -INT32_MAX - 1, INT32_MAX);
        var exp := ParseInt(payload[colon + 1..], -INT64_MAX - 1, INT64_MAX);
        if id.None? || exp.None? then Unreadable else Fields(id.value, exp.value)
  }

  function VerifyToken(s: AccountStore, orgs: seq<OrgInfo>, token: string, now: int): Verdict {
    if token in s.invalidated then Rejected
    else match ReadToken(token)
      case NoToken => Rejected
      case Unreadable => Throws
      case Fields(id, exp) =>
        var i := ById(s.accounts, id);
        if now > exp || i == |s.accounts| || !s.accounts[i].isActive then Rejected
        else Accepted(PayloadFor(s.accounts[i], orgs, now, exp))
  }

  // ---------------------------------------------------------------- tokens

  lemma FirstColon(a: string, b: string)
    requires forall i :: 0 <= i < |a| ==> a[i] != ':'
    ensures IndexOfChar(a + (":" + b), ':') == |a|
  {
    var s := a + (":" + b);
    assert s[|a|] == ':';
  }

  /** verify_token takes apart what generate_token put together, up to something stoll does not read. */
  lemma ReadTokenOf(id: int, exp: int, tail: string)
    requires 0 <= id <= INT32_MAX && -INT64_MAX - 1 <= exp <= INT64_MAX && Stops(tail)
    ensures ReadToken(Token(id, exp) + tail) == Fields(id, exp)
  {
    var a, b := IntToString(id), IntToString(exp) + tail;
    TokenShape(id, exp, tail);
    PayloadParts(a, b);
    assert a + "" == a;
    ParseIntOfIntToString(id, "", -INT32_MAX - 1, INT32_MAX);
    ParseIntOfIntToString(exp, tail, -INT64_MAX - 1, INT64_MAX);
  }

  lemma TokenShape(id: int, exp: int, tail: string)
    ensures var token := Token(id, exp) + tail;
      && TOKEN_PREFIX <= token
      && token[|TOKEN_PREFIX|..] == IntToString(id) + (":" + (IntToString(exp) + tail))
  {
    var token := Token(id, exp) + tail;
    assert token[..|TOKEN_PREFIX|] == TOKEN_PREFIX;
  }

  lemma PayloadParts(a: string, b: string)
    requires forall i :: 0 <= i < |a| ==> a[i] != ':'
    ensures var payload := a + (":" + b);
      var colon := IndexOfChar(payload, ':');
      colon == |a| && payload[..colon] == a && payload[colon + 1..] == b
  {
    FirstColon(a, b);
  }

  /** verify_token on a token made by generate_token, with something after it that stoll does not read. */
  lemma VerifyWithTail(s: AccountStore, orgs: seq<OrgInfo>, id: int, exp: int, tail: string, now: int)
    requires 0 <= id <= INT32_MAX && -INT64_MAX - 1 <= exp <= INT64_MAX && Stops(tail)
    ensures var i, token := ById(s.accounts, id), Token(id, exp) + tail;
      VerifyToken(s, orgs, token, now) ==
      if token in s.invalidated || now > exp || i == |s.accounts| || !s.accounts[i].isActive then Rejected
      else Accepted(PayloadFor(s.accounts[i], orgs, now, exp))
  {
    ReadTokenOf(id, exp, tail);
  }

  /** verify_token on a token made by generate_token. */
  lemma VerifyIssued(s: AccountStore, orgs: seq<OrgInfo>, id: int, exp: int, now: int)
    requires 0 <= id <= INT32_MAX && -INT64_MAX - 1 <= exp <= INT64_MAX
    ensures var i := ById(s.accounts, id);
      VerifyToken(s, orgs, Token(id, exp), now) ==
      if Token(id, exp) in s.invalidated || now > exp || i == |s.accounts| || !s.accounts[i].isActive then Rejected
      else Accepted(PayloadFor(s.accounts[i], orgs, now, exp))
  {
    VerifyWithTail(s, orgs, id, exp, "", now);
    assert Token(id, exp) + "" == Token(id, exp);
  }

  lemma BlacklistedIsRejected(s: AccountStore, orgs: seq<OrgInfo>, token: string, now: int)
    requires token in s.invalidated
    ensures VerifyToken(s, orgs, token, now) == Rejected
  {
  }

  // ---------------------------------------------------------------- what the calls do, on fields

  ghost predicate NameUsed(accounts: seq<AccountInfo>, name: string) {
    exists a :: a in accounts && a.username == name
  }

  ghost predicate OrgUsed(orgs: seq<OrgInfo>, id: int) {
    exists o :: o in orgs && o.orgId == id
  }

  predicate KnownRole(role: string) {
    role == "super_admin" || role == "org_admin" || role == "dept_admin" || role == "operator" || role == "viewer"
  }

  lemma UsedByName(accounts: seq<AccountInfo>, name: string)
    ensures NameUsed(accounts, name) <==> ByName(accounts, name) < |accounts|
  {
    var i := ByName(accounts, name);
    if i < |accounts| {
      assert accounts[i] in accounts;
    }
  }

  lemma UsedById(orgs: seq<OrgInfo>, id: int)
    ensures OrgUsed(orgs, id) <==> Exists(orgs, id)
  {
    var i := IndexOf(orgs, id);
    if i < |orgs| {
      assert orgs[i] in orgs;
    }
  }

  /** create_account's refusals, each with its own condition. */
  lemma CreateRefusals(s: AccountStore, orgs: seq<OrgInfo>, info: AccountInfo)
    ensures var status := CreateStatus(s, orgs, info);
      var taken, homeless := NameUsed(s.accounts, info.username), !OrgUsed(orgs, info.orgId);
      && (status == ACCOUNT_DUPLICATE <==> taken)
      && (status == ORG_NOT_FOUND <==> !taken && homeless)
      && (status == ERROR <==> !taken && !homeless && !KnownRole(info.roleCode))
      && (status == OK <==> !taken && !homeless && KnownRole(info.roleCode))
  {
    UsedByName(s.accounts, info.username);
    UsedById(orgs, info.orgId);
  }

  /** The new account comes last, active, with the request's texts, and its row is the same. */
  lemma CreateOnFields(s: AccountStore, orgs: seq<OrgInfo>, info: AccountInfo, hash: string, now: string)
    requires CreateStatus(s, orgs, info) == OK
    ensures var s' := CreateAccount(s, orgs, info, hash, now);
      && |s'.accounts| == |s.accounts| + 1 && s'.accounts[..|s.accounts|] == s.accounts
      && s'.nextId == s.nextId + 1 && s'.invalidated == s.invalidated
      && var a := s'.accounts[|s.accounts|];
      && a.accountId == s.nextId && a.username == info.username && a.passwordHash == hash
      && a.displayName == info.displayName && a.orgId == info.orgId && a.roleCode == info.roleCode
      && a.email == info.email && a.phone == info.phone && a.isActive && a.lastLoginAt == info.lastLoginAt
      && a.createdAt == now && a.updatedAt == now
      && (exists o :: o in orgs && o.orgId == info.orgId && a.orgName == o.orgName)
      && s'.rows == s.rows[s.nextId := a]
  {
    var o := orgs[IndexOf(orgs, info.orgId)];
    assert o in orgs;
  }

  /** A text is the request's if that is not empty, and otherwise stays. */
  predicate Taken(text: string, before: string, asked: string) {
    (asked != "" ==> text == asked) && (asked == "" ==> text == before)
  }

  /** What update_account leaves of an entry or of its row. */
  predicate UpdatedAs(a: AccountInfo, before: AccountInfo, info: AccountInfo, now: string) {
    && a.isActive == info.isActive && a.updatedAt == now
    && Taken(a.displayName, before.displayName, info.displayName)
    && Taken(a.email, before.email, info.email)
    && Taken(a.phone, before.phone, info.phone)
    && Taken(a.roleCode, before.roleCode, info.roleCode)
    && a.accountId == before.accountId && a.username == before.username && a.orgId == before.orgId
    && a.orgName == before.orgName && a.createdAt == before.createdAt
  }

  /** update_account changes one entry and nothing else in memory. */
  lemma UpdateOnFields(s: AccountStore, id: int, info: AccountInfo, now: string)
    requires UniqueAccountIds(s.accounts)
    ensures var s' := UpdateAccount(s, id, info, now);
      && |s'.accounts| == |s.accounts| && s'.nextId == s.nextId && s'.invalidated == s.invalidated
      && forall i :: 0 <= i < |s.accounts| ==>
           var a, before := s'.accounts[i], s.accounts[i];
           if before.accountId == id
           then && UpdatedAs(a, before, info, now)
                && a.passwordHash == before.passwordHash && a.lastLoginAt == before.lastLoginAt
           else a == before
  {
  }

  /** delete_account clears one entry's active flag and nothing else in memory. */
  lemma DeleteOnFields(s: AccountStore, id: int)
    requires UniqueAccountIds(s.accounts)
    ensures var s' := DeleteAccount(s, id);
      && |s'.accounts| == |s.accounts| && s'.nextId == s.nextId && s'.invalidated == s.invalidated
      && forall i :: 0 <= i < |s.accounts| ==>
           if s.accounts[i].accountId == id
           then !s'.accounts[i].isActive && s'.accounts[i] == s.accounts[i].(isActive := s'.accounts[i].isActive)
           else s'.accounts[i] == s.accounts[i]
  {
  }

  /** change_password sets one entry's hash, if the old one matches, and nothing else at all. */
  lemma ChangeOnFields(s: AccountStore, id: int, oldHash: string, newHash: string)
    requires UniqueAccountIds(s.accounts)
    ensures var s' := ChangePassword(s, id, oldHash, newHash);
      && s' == s.(accounts := s'.accounts) && |s'.accounts| == |s.accounts|
      && forall i :: 0 <= i < |s.accounts| ==>
           var a, before := s'.accounts[i], s.accounts[i];
           && a == before.(passwordHash := a.passwordHash)
           && var hit := before.accountId == id && before.passwordHash == oldHash;
           a.passwordHash == if hit then newHash else before.passwordHash
  {
  }

  /** A login succeeds exactly for the name, active flag and password hash of one account. */
  ghost predicate MayLogIn(accounts: seq<AccountInfo>, name: string, hash: string) {
    exists a :: a in accounts && a.username == name && a.isActive && a.passwordHash == hash
  }

  ghost predicate NameActive(accounts: seq<AccountInfo>, name: string) {
    exists a :: a in accounts && a.username == name && a.isActive
  }

  ghost predicate LoginAnswers(status: StatusCode, accounts: seq<AccountInfo>, name: string, hash: string) {
    && (status == OK <==> MayLogIn(accounts, name, hash))
    && (status == ACCOUNT_NOT_FOUND <==> !NameUsed(accounts, name))
    && (status == ACCOUNT_LOCKED <==> NameUsed(accounts, name) && !NameActive(accounts, name))
    && (status == ACCOUNT_BAD_PASSWORD <==> NameActive(accounts, name) && !MayLogIn(accounts, name, hash))
  }

  /** login's outcomes, each with its own condition. */
  lemma LoginOutcomes(s: AccountStore, name: string, hash: string)
    requires UniqueNames(s.accounts)
    ensures LoginAnswers(LoginStatus(s, name, hash), s.accounts, name, hash)
  {
    UsedByName(s.accounts, name);
    var i := ByName(s.accounts, name);
    if i < |s.accounts| {
      assert s.accounts[i] in s.accounts;
      assert forall j :: 0 <= j < |s.accounts| && s.accounts[j].username == name ==> j == i;
    }
  }

  /** A login stamps the account it is for and changes nothing else. */
  lemma LoginOnFields(s: AccountStore, name: string, hash: string, stamp: string)
    requires UniqueNames(s.accounts) && UniqueAccountIds(s.accounts)
    ensures var s' := Login(s, name, hash, stamp);
      && s' == s.(accounts := s'.accounts) && |s'.accounts| == |s.accounts|
      && forall i :: 0 <= i < |s.accounts| ==>
           var a, before := s'.accounts[i], s.accounts[i];
           && a == before.(lastLoginAt := a.lastLoginAt)
           && (before.username == name && before.isActive && before.passwordHash == hash ==> a.lastLoginAt == stamp)
           && (before.username != name || !before.isActive || before.passwordHash != hash ==> a == before)
  {
    var i := ByName(s.accounts, name);
    if i < |s.accounts| {
      var k := ById(s.accounts, s.accounts[i].accountId);
      assert k == i;
    }
  }

  /** What an accepted payload says: the account's own data, the moment, and the expiry. */
  lemma PayloadOnFields(a: AccountInfo, orgs: seq<OrgInfo>, now: int, exp: int)
    ensures var p := PayloadFor(a, orgs, now, exp);
      && p.accountId == a.accountId && p.username == a.username && p.orgId == a.orgId && p.roleCode == a.roleCode
      && p.iat == now && p.exp == exp
      && p.orgScope == Scope(orgs, a.orgId) && p.permissions == PermissionsFor(a.roleCode)
  {
  }

  // ---------------------------------------------------------------- permissions

  /** The table by permission instead of by role. */
  predicate MayDo(role: string, permission: string) {
    match permission
    case "device:read" => KnownRole(role)
    case "order:read" => KnownRole(role)
    case "recipe:read" => KnownRole(role)
    case "ota:read" => KnownRole(role)
    case "fault:read" => KnownRole(role)
    case "fault:write" => KnownRole(role) && role != "viewer"
    case "org:read" => KnownRole(role) && role != "viewer" && role != "operator"
    case "account:read" => KnownRole(role) && role != "viewer" && role != "operator"
    case "device:write" => KnownRole(role) && role != "viewer" && role != "operator"
    case "recipe:write" => KnownRole(role) && role != "viewer" && role != "dept_admin"
    case "org:write" => role == "org_admin" || role == "super_admin"
    case "account:write" => role == "org_admin" || role == "super_admin"
    case "ota:write" => role == "org_admin" || role == "super_admin"
    case "config:read" => role == "org_admin" || role == "super_admin"
    case "config:write" => role == "super_admin"
    case _ => false
  }

  /** A role has exactly the permissions the table gives it, and an unknown role none. */
  lemma PermissionsAreTheTable(role: string, permission: string)
    ensures permission in PermissionsFor(role) <==> MayDo(role, permission)
  {
  }

  // ---------------------------------------------------------------- any string

  /** The text after the prefix, split at its first colon. */
  predicate TokenOf(token: string, a: string, b: string) {
    token == "mock_jwt:" + (a + (":" + b)) && forall i :: 0 <= i < |a| ==> a[i] != ':'
  }

  /** A string of that form throws exactly when a number does not parse; any other string is no token. */
  lemma ReadTokenCases(token: string, a: string, b: string)
    ensures TokenOf(token, a, b) ==>
      var id, exp := ParseInt(a, -0x8000_0000, 0x7FFF_FFFF), ParseInt(b, -0x8000_0000_0000_0000, 0x7FFF_FFFF_FFFF_FFFF);
      ReadToken(token) == if id.None? || exp.None? then Unreadable else Fields(id.value, exp.value)
    ensures ReadToken(token) == NoToken <==> forall c, d :: !TokenOf(token, c, d)
  {
    if TokenOf(token, a, b) {
      SplitToken(token, a, b);
    }
    if ReadToken(token) != NoToken {
      JoinToken(token);
    } else if c, d :| TokenOf(token, c, d) {
      SplitToken(token, c, d);
    }
  }

  lemma JoinToken(token: string)
    requires ReadToken(token) != NoToken
    ensures exists a, b :: TokenOf(token, a, b)
  {
    var payload := token[|TOKEN_PREFIX|..];
    var colon := IndexOfChar(payload, ':');
    var a, b := payload[..colon], payload[colon + 1..];
    ColonBetween(payload, colon);
    assert token == "mock_jwt:" + payload;
    assert TokenOf(token, a, b);
  }

  lemma ColonBetween(payload: string, colon: nat)
    requires colon < |payload| && payload[colon] == ':'
    ensures payload == payload[..colon] + (":" + payload[colon + 1..])
  {
    assert payload[colon..] == [payload[colon]] + payload[colon + 1..];
    assert payload == payload[..colon] + payload[colon..];
  }

  /** verify_token on a string that is no token: rejected. */
  lemma OtherStringsAreRejected(s: AccountStore, orgs: seq<OrgInfo>, token: string, now: int)
    requires token in s.invalidated || (forall c, d :: !TokenOf(token, c, d))
    ensures VerifyToken(s, orgs, token, now) == Rejected
  {
    ReadTokenCases(token, "", "");
  }

  /** verify_token on a string of the form of a token: when it throws, and whom it accepts. */
  lemma VerdictCases(s: AccountStore, orgs: seq<OrgInfo>, token: string, now: int, a: string, b: string)
    requires token !in s.invalidated && TokenOf(token, a, b)
    ensures
      var id, exp := ParseInt(a, -0x8000_0000, 0x7FFF_FFFF), ParseInt(b, -0x8000_0000_0000_0000, 0x7FFF_FFFF_FFFF_FFFF);
      VerifyToken(s, orgs, token, now) ==
      if id.None? || exp.None? then Throws
      else
        var i := ById(s.accounts, id.value);
        if now <= exp.value && i < |s.accounts| && s.accounts[i].isActive
        then Accepted(PayloadFor(s.accounts[i], orgs, now, exp.value))
        else Rejected
  {
    ReadTokenCases(token, a, b);
  }

  lemma SplitToken(token: string, a: string, b: string)
    requires TokenOf(token, a, b)
    ensures TOKEN_PREFIX <= token
    ensures var payload := token[|TOKEN_PREFIX|..];
      var colon := IndexOfChar(payload, ':');
      colon < |payload| && payload[..colon] == a && payload[colon + 1..] == b
  {
    assert token[|TOKEN_PREFIX|..] == a + (":" + b);
    PayloadParts(a, b);
  }
}
