/** Runs of both managers and their restarts: which accounts persist, and what a token proves. */
module AccountRuns {
  import opened Common
  import opened Decimal
  import opened OrgForest
  import OrgRuns
  import opened Accounts

  /**
    Both managers, and the birth of each account's organization at the time the account was
    created. Hashed passwords stand for the passwords.
   */
  datatype Portal = Portal(accts: AccountStore, orgs: OrgRuns.World, homes: map<int, Birth>)

  /** A restart is one new process for both managers; there is no other reload. */
  datatype Op =
    | Create(info: AccountInfo, hash: string, now: string)
    | Update(id: int, info: AccountInfo, now: string)
    | Delete(id: int)
    | ChangePass(id: int, oldHash: string, newHash: string)
    | LogIn(name: string, hash: string, stamp: string)
    | LogOut(token: string)
    | Org(op: OrgRuns.Op)
    | Restart(orgListing: seq<OrgInfo>, listing: seq<AccountInfo>)

  function Init(): Portal {
    Portal(AccountStore([], 1, [], map[]), OrgRuns.Init(), map[])
  }

  ghost predicate Enabled(p: Portal, op: Op) {
    match op
    case Create(_, _, _) => p.accts.nextId < INT32_MAX
    case Org(o) => !o.Restart? && OrgRuns.Enabled(p.orgs, o)
    case Restart(orgListing, listing) =>
      OrgRuns.Enabled(p.orgs, OrgRuns.Restart(orgListing)) && ListsAccounts(listing, p.accts.rows)
    case _ => true
  }

  /** The organization an account is created in, as the birth it stands for at that moment. */
  function HomesAfter(p: Portal, info: AccountInfo): map<int, Birth> {
    if Accounts.CreateStatus(p.accts, p.orgs.store.orgs, info) == OK && info.orgId in p.orgs.born
    then p.homes[p.accts.nextId := p.orgs.born[info.orgId]] else p.homes
  }

  function Step(p: Portal, op: Op): Portal {
    match op
    case Create(info, hash, now) =>
      p.(accts := CreateAccount(p.accts, p.orgs.store.orgs, info, hash, now), homes := HomesAfter(p, info))
    case Update(id, info, now) => p.(accts := UpdateAccount(p.accts, id, info, now))
    case Delete(id) => p.(accts := DeleteAccount(p.accts, id))
    case ChangePass(id, oldHash, newHash) => p.(accts := ChangePassword(p.accts, id, oldHash, newHash))
    case LogIn(name, hash, stamp) => p.(accts := Login(p.accts, name, hash, stamp))
    case LogOut(token) => p.(accts := p.accts.(invalidated := p.accts.invalidated + [token]))
    case Org(o) => p.(orgs := OrgRuns.Step(p.orgs, o))
    case Restart(orgListing, listing) =>
      p.(accts := ReloadedAccounts(p.accts, listing), orgs := OrgRuns.Step(p.orgs, OrgRuns.Restart(orgListing)))
  }

  ghost predicate IsRun(p: Portal, ops: seq<Op>, p': Portal)
    decreases |ops|
  {
    if ops == [] then p == p' else Enabled(p, ops[0]) && IsRun(Step(p, ops[0]), ops[1..], p')
  }

  lemma RunCons(p: Portal, op: Op, ops: seq<Op>, r: Portal)
    requires Enabled(p, op) && IsRun(Step(p, op), ops, r)
    ensures IsRun(p, [op] + ops, r)
  {
    assert ([op] + ops)[0] == op && ([op] + ops)[1..] == ops;
  }

  lemma RunUncons(p: Portal, ops: seq<Op>, q: Portal)
    requires ops != [] && IsRun(p, ops, q)
    ensures Enabled(p, ops[0]) && IsRun(Step(p, ops[0]), ops[1..], q)
  {
  }

  lemma RunAfterNothing(p: Portal, q: Portal, ops': seq<Op>, r: Portal)
    requires IsRun(p, [], q) && IsRun(q, ops', r)
    ensures IsRun(p, [] + ops', r)
  {
    assert [] + ops' == ops';
  }

  lemma RunAfterStep(p: Portal, op: Op, rest: seq<Op>, ops': seq<Op>, r: Portal)
    requires Enabled(p, op) && IsRun(Step(p, op), rest + ops', r)
    ensures IsRun(p, [op] + rest + ops', r)
  {
    RunCons(p, op, rest + ops', r);
    assert [op] + (rest + ops') == [op] + rest + ops';
  }

  lemma {:induction false} RunsCompose(p: Portal, ops: seq<Op>, q: Portal, ops': seq<Op>, r: Portal)
    requires IsRun(p, ops, q) && IsRun(q, ops', r)
    ensures IsRun(p, ops + ops', r)
    decreases |ops|
  {
    if ops == [] {
      RunAfterNothing(p, q, ops', r);
    } else {
      RunUncons(p, ops, q);
      RunsCompose(Step(p, ops[0]), ops[1..], q, ops', r);
      RunAfterStep(p, ops[0], ops[1..], ops', r);
      assert ops == [ops[0]] + ops[1..];
    }
  }

  lemma OneStep(p: Portal, op: Op)
    requires Enabled(p, op)
    ensures IsRun(p, [op], Step(p, op))
  {
    assert [op][1..] == [];
  }

  // ---------------------------------------------------------------- invariant

  /** The row has everything of the entry but the password hash and the last login. */
  predicate SameAsRow(a: AccountInfo, r: AccountInfo) {
    a.(passwordHash := r.passwordHash, lastLoginAt := r.lastLoginAt) == r
  }

  ghost predicate AccountRowsMatch(accounts: seq<AccountInfo>, rows: map<int, AccountInfo>) {
    && (forall i :: 0 <= i < |accounts| ==>
          accounts[i].accountId in rows && SameAsRow(accounts[i], rows[accounts[i].accountId]))
    && (forall id :: id in rows ==> ById(accounts, id) < |accounts|)
  }

  ghost predicate Inv(s: AccountStore) {
    && 1 <= s.nextId <= INT32_MAX
    && (forall i :: 0 <= i < |s.accounts| ==> 1 <= s.accounts[i].accountId < s.nextId)
    && UniqueAccountIds(s.accounts)
    && UniqueNames(s.accounts)
    && AccountRowsMatch(s.accounts, s.rows)
  }

  predicate SameHolder(a: AccountInfo, b: AccountInfo) {
    a.accountId == b.accountId && a.username == b.username && a.orgId == b.orgId
  }

  /** The account is found again under its id; id, name, organization and the row's hash never change. */
  ghost predicate Found(s: AccountStore, i: nat, s': AccountStore)
    requires i < |s.accounts|
  {
    var id := s.accounts[i].accountId;
    var k := ById(s'.accounts, id);
    && k < |s'.accounts| && SameHolder(s.accounts[i], s'.accounts[k])
    && id in s.rows && id in s'.rows && s'.rows[id].passwordHash == s.rows[id].passwordHash
  }

  ghost predicate Extends(s: AccountStore, s': AccountStore) {
    forall i :: 0 <= i < |s.accounts| ==> Found(s, i, s')
  }

  lemma ExtendsTransitive(s: AccountStore, t: AccountStore, u: AccountStore)
    requires Extends(s, t) && Extends(t, u)
    ensures Extends(s, u)
  {
    forall i | 0 <= i < |s.accounts|
      ensures Found(s, i, u)
    {
      assert Found(s, i, t);
      assert Found(t, ById(t.accounts, s.accounts[i].accountId), u);
    }
  }

  lemma PlaceOf(accounts: seq<AccountInfo>, i: nat)
    requires UniqueAccountIds(accounts) && i < |accounts|
    ensures ById(accounts, accounts[i].accountId) == i
  {
    var k := ById(accounts, accounts[i].accountId);
  }

  /** Accounts keep their ids and places, and more may follow. */
  ghost predicate InPlace(accounts: seq<AccountInfo>, accounts': seq<AccountInfo>) {
    && |accounts| <= |accounts'|
    && forall j :: 0 <= j < |accounts| ==> SameHolder(accounts[j], accounts'[j])
  }

  lemma InPlaceExtends(s: AccountStore, s': AccountStore)
    requires Inv(s) && InPlace(s.accounts, s'.accounts) && UniqueAccountIds(s'.accounts)
    requires forall id :: id in s.rows ==> id in s'.rows && s'.rows[id].passwordHash == s.rows[id].passwordHash
    ensures Extends(s, s')
  {
    forall j | 0 <= j < |s.accounts|
      ensures Found(s, j, s')
    {
      assert SameHolder(s.accounts[j], s'.accounts[j]);
      PlaceOf(s'.accounts, j);
      RowOf(s, j);
    }
  }

  lemma InPlaceFinds(accounts: seq<AccountInfo>, accounts': seq<AccountInfo>, id: int)
    requires InPlace(accounts, accounts') && ById(accounts, id) < |accounts|
    ensures ById(accounts', id) < |accounts'|
  {
    var k := ById(accounts, id);
    assert SameHolder(accounts[k], accounts'[k]);
  }

  lemma ReplaceKeepsRows(accounts: seq<AccountInfo>, i: nat, a: AccountInfo, rows: map<int, AccountInfo>,
                         rows': map<int, AccountInfo>)
    requires UniqueAccountIds(accounts) && AccountRowsMatch(accounts, rows)
    requires i < |accounts| && SameHolder(accounts[i], a)
    requires rows'.Keys == rows.Keys && a.accountId in rows' && SameAsRow(a, rows'[a.accountId])
    requires forall id :: id in rows' && id != a.accountId ==> rows'[id] == rows[id]
    ensures AccountRowsMatch(accounts[i := a], rows')
  {
    assert InPlace(accounts, accounts[i := a]);
    forall id | id in rows'
      ensures ById(accounts[i := a], id) < |accounts|
    {
      InPlaceFinds(accounts, accounts[i := a], id);
    }
  }

  lemma ReplaceKeepsUnique(accounts: seq<AccountInfo>, i: nat, a: AccountInfo)
    requires UniqueAccountIds(accounts) && UniqueNames(accounts) && i < |accounts| && SameHolder(accounts[i], a)
    ensures UniqueAccountIds(accounts[i := a]) && UniqueNames(accounts[i := a]) && InPlace(accounts, accounts[i := a])
  {
  }

  /** A change of one entry, and perhaps of its row, that keeps what identifies the account. */
  lemma ReplaceKeepsInv(s: AccountStore, i: nat, a: AccountInfo, rows: map<int, AccountInfo>)
    requires Inv(s) && i < |s.accounts| && SameHolder(s.accounts[i], a)
    requires rows.Keys == s.rows.Keys && a.accountId in rows && SameAsRow(a, rows[a.accountId])
    requires rows[a.accountId].passwordHash == s.rows[a.accountId].passwordHash
    requires forall id :: id in rows && id != a.accountId ==> rows[id] == s.rows[id]
    ensures var s' := ReplaceAccount(s, i, a).(rows := rows); Inv(s') && Extends(s, s')
  {
    var s' := ReplaceAccount(s, i, a).(rows := rows);
    ReplaceKeepsRows(s.accounts, i, a, s.rows, rows);
    ReplaceKeepsUnique(s.accounts, i, a);
    InPlaceExtends(s, s');
  }

  lemma RowOf(s: AccountStore, i: nat)
    requires Inv(s) && i < |s.accounts|
    ensures s.accounts[i].accountId in s.rows && SameAsRow(s.accounts[i], s.rows[s.accounts[i].accountId])
  {
  }

  lemma SaveKeepsInv(s: AccountStore, i: nat, a: AccountInfo)
    requires Inv(s) && i < |s.accounts| && SameHolder(s.accounts[i], a) && a.createdAt == s.accounts[i].createdAt
    ensures Inv(SaveAccount(s, i, a)) && Extends(s, SaveAccount(s, i, a))
  {
    RowOf(s, i);
    ReplaceKeepsInv(s, i, a, UpdateAccountRow(s.rows, a));
  }

  /** Entries may get a new hash or login time without touching their row. */
  lemma TouchKeepsInv(s: AccountStore, i: nat, a: AccountInfo)
    requires Inv(s) && i < |s.accounts|
    requires a == s.accounts[i].(passwordHash := a.passwordHash, lastLoginAt := a.lastLoginAt)
    ensures Inv(ReplaceAccount(s, i, a)) && Extends(s, ReplaceAccount(s, i, a))
  {
    RowOf(s, i);
    ReplaceKeepsInv(s, i, a, s.rows);
  }

  lemma AppendKeepsRows(accounts: seq<AccountInfo>, a: AccountInfo, rows: map<int, AccountInfo>)
    requires AccountRowsMatch(accounts, rows)
    requires forall i :: 0 <= i < |accounts| ==> accounts[i].accountId != a.accountId
    ensures AccountRowsMatch(accounts + [a], rows[a.accountId := a])
  {
    var accounts' := accounts + [a];
    assert InPlace(accounts, accounts');
    forall id | id == a.accountId || id in rows
      ensures ById(accounts', id) < |accounts'|
    {
      if id == a.accountId {
        assert accounts'[|accounts|].accountId == id;
      } else {
        InPlaceFinds(accounts, accounts', id);
      }
    }
  }

  lemma AppendKeepsUnique(accounts: seq<AccountInfo>, a: AccountInfo)
    requires UniqueAccountIds(accounts) && UniqueNames(accounts)
    requires forall i :: 0 <= i < |accounts| ==>
            accounts[i].accountId != a.accountId && accounts[i].username != a.username
    ensures UniqueAccountIds(accounts + [a]) && UniqueNames(accounts + [a]) && InPlace(accounts, accounts + [a])
  {
  }

  lemma AppendKeepsInv(s: AccountStore, a: AccountInfo)
    requires Inv(s) && s.nextId < INT32_MAX && a.accountId == s.nextId
    requires ByName(s.accounts, a.username) == |s.accounts|
    ensures var s' := s.(accounts := s.accounts + [a], nextId := s.nextId + 1, rows := s.rows[a.accountId := a]);
      Inv(s') && Extends(s, s')
  {
    var s' := s.(accounts := s.accounts + [a], nextId := s.nextId + 1, rows := s.rows[a.accountId := a]);
    AppendKeepsRows(s.accounts, a, s.rows);
    AppendKeepsUnique(s.accounts, a);
    assert s.nextId !in s.rows by { assert ById(s.accounts, s.nextId) == |s.accounts|; }
    InPlaceExtends(s, s');
  }

  /** A listed row stands for the account of its id. */
  lemma ListedIsAccount(s: AccountStore, listing: seq<AccountInfo>, i: nat)
    requires Inv(s) && ListsAccounts(listing, s.rows) && i < |listing|
    ensures var k := ById(s.accounts, listing[i].accountId);
      k < |s.accounts| && s.accounts[k].accountId == listing[i].accountId && SameAsRow(s.accounts[k], listing[i])
  {
    RowOf(s, ById(s.accounts, listing[i].accountId));
  }

  lemma ListingIsUnique(s: AccountStore, listing: seq<AccountInfo>)
    requires Inv(s) && ListsAccounts(listing, s.rows)
    ensures UniqueNames(listing) && forall i :: 0 <= i < |listing| ==> 1 <= listing[i].accountId < s.nextId
  {
    forall i | 0 <= i < |listing|
      ensures 1 <= listing[i].accountId < s.nextId
    {
      ListedIsAccount(s, listing, i);
    }
    forall i, j | 0 <= i < j < |listing|
      ensures listing[i].username != listing[j].username
    {
      ListedIsAccount(s, listing, i);
      ListedIsAccount(s, listing, j);
    }
  }

  lemma ReloadExtends(s: AccountStore, listing: seq<AccountInfo>)
    requires Inv(s) && ListsAccounts(listing, s.rows)
    ensures Extends(s, ReloadedAccounts(s, listing))
  {
    forall j | 0 <= j < |s.accounts|
      ensures Found(s, j, ReloadedAccounts(s, listing))
    {
      RowOf(s, j);
      assert listing[ById(listing, s.accounts[j].accountId)] == s.rows[s.accounts[j].accountId];
    }
  }

  lemma ReloadKeepsInv(s: AccountStore, listing: seq<AccountInfo>)
    requires Inv(s) && ListsAccounts(listing, s.rows)
    ensures Inv(ReloadedAccounts(s, listing)) && Extends(s, ReloadedAccounts(s, listing))
  {
    ListingIsUnique(s, listing);
    MaxAccountIdIsLargest(listing);
    ReloadExtends(s, listing);
    assert forall i :: 0 <= i < |listing| ==> SameAsRow(listing[i], listing[i]);
  }

  lemma CreateKeepsInv(s: AccountStore, orgs: seq<OrgInfo>, info: AccountInfo, hash: string, now: string)
    requires Inv(s) && s.nextId < INT32_MAX
    ensures var s' := CreateAccount(s, orgs, info, hash, now); Inv(s') && Extends(s, s')
  {
    SelfExtends(s);
    if Accounts.CreateStatus(s, orgs, info) == OK {
      AppendKeepsInv(s, CreateAccount(s, orgs, info, hash, now).accounts[|s.accounts|]);
    }
  }

  lemma UpdateKeepsInv(s: AccountStore, id: int, info: AccountInfo, now: string)
    requires Inv(s)
    ensures var s' := UpdateAccount(s, id, info, now); Inv(s') && Extends(s, s')
  {
    SelfExtends(s);
    var i := ById(s.accounts, id);
    if i < |s.accounts| {
      SaveKeepsInv(s, i, EditedAccount(s.accounts[i], info, now));
    }
  }

  lemma DeleteKeepsInv(s: AccountStore, id: int)
    requires Inv(s)
    ensures Inv(DeleteAccount(s, id)) && Extends(s, DeleteAccount(s, id))
  {
    SelfExtends(s);
    var i := ById(s.accounts, id);
    if i < |s.accounts| {
      SaveKeepsInv(s, i, s.accounts[i].(isActive := false));
    }
  }

  lemma ChangePasswordKeepsInv(s: AccountStore, id: int, oldHash: string, newHash: string)
    requires Inv(s)
    ensures var s' := ChangePassword(s, id, oldHash, newHash); Inv(s') && Extends(s, s')
  {
    SelfExtends(s);
    var i := ById(s.accounts, id);
    if i < |s.accounts| {
      TouchKeepsInv(s, i, s.accounts[i].(passwordHash := newHash));
    }
  }

  lemma LoginKeepsInv(s: AccountStore, name: string, hash: string, stamp: string)
    requires Inv(s)
    ensures Inv(Login(s, name, hash, stamp)) && Extends(s, Login(s, name, hash, stamp))
  {
    SelfExtends(s);
    if LoginStatus(s, name, hash) == OK {
      var i := ByName(s.accounts, name);
      PlaceOf(s.accounts, i);
      TouchKeepsInv(s, i, s.accounts[i].(lastLoginAt := stamp));
    }
  }

  lemma AccountsKeepInv(p: Portal, op: Op)
    requires Inv(p.accts) && Enabled(p, op)
    ensures Inv(Step(p, op).accts) && Extends(p.accts, Step(p, op).accts)
  {
    var s := p.accts;
    match op
    case Create(info, hash, now) => CreateKeepsInv(s, p.orgs.store.orgs, info, hash, now);
    case Update(id, info, now) => UpdateKeepsInv(s, id, info, now);
    case Delete(id) => DeleteKeepsInv(s, id);
    case ChangePass(id, oldHash, newHash) => ChangePasswordKeepsInv(s, id, oldHash, newHash);
    case LogIn(name, hash, stamp) => LoginKeepsInv(s, name, hash, stamp);
    case LogOut(token) => SameEntries(s, s.(invalidated := s.invalidated + [token]));
    case Org(_) => SelfExtends(s);
    case Restart(_, listing) => ReloadKeepsInv(s, listing);
  }

  lemma SelfExtends(s: AccountStore)
    requires Inv(s)
    ensures Extends(s, s)
  {
    SameEntries(s, s);
  }

  lemma SameEntries(s: AccountStore, s': AccountStore)
    requires Inv(s) && s' == s.(invalidated := s'.invalidated)
    ensures Inv(s') && Extends(s, s')
  {
    forall j | 0 <= j < |s.accounts|
      ensures Found(s, j, s')
    {
      PlaceOf(s.accounts, j);
      RowOf(s, j);
    }
  }

  // ---------------------------------------------------------------- homes

  /** Each account's home birth has the id its organization field names. */
  ghost predicate Housed(accounts: seq<AccountInfo>, homes: map<int, Birth>) {
    forall i :: 0 <= i < |accounts| ==>
      accounts[i].accountId in homes && homes[accounts[i].accountId].id == accounts[i].orgId
  }

  ghost predicate PortalInv(p: Portal) {
    Inv(p.accts) && OrgRuns.Inv(p.orgs) && Housed(p.accts.accounts, p.homes)
  }

  /** Accounts keep their home births. */
  ghost predicate SameHomes(p: Portal, p': Portal) {
    forall i :: 0 <= i < |p.accts.accounts| ==>
      var id := p.accts.accounts[i].accountId; id in p.homes && id in p'.homes && p'.homes[id] == p.homes[id]
  }

  lemma HousedAfter(s: AccountStore, s': AccountStore, homes: map<int, Birth>)
    requires Inv(s) && Housed(s.accounts, homes)
    requires forall i :: 0 <= i < |s'.accounts| ==>
      var k := ById(s.accounts, s'.accounts[i].accountId);
      k < |s.accounts| && SameHolder(s.accounts[k], s'.accounts[i])
    ensures Housed(s'.accounts, homes)
  {
  }

  lemma RestartKeepsHoused(s: AccountStore, listing: seq<AccountInfo>, homes: map<int, Birth>)
    requires Inv(s) && ListsAccounts(listing, s.rows) && Housed(s.accounts, homes)
    ensures Housed(listing, homes)
  {
    forall i | 0 <= i < |listing|
      ensures var k := ById(s.accounts, listing[i].accountId);
        k < |s.accounts| && SameHolder(s.accounts[k], listing[i])
    {
      RowOf(s, ById(s.accounts, listing[i].accountId));
    }
    HousedAfter(s, s.(accounts := listing), homes);
  }

  lemma CreateKeepsHoused(p: Portal, info: AccountInfo, hash: string, now: string)
    requires PortalInv(p)
    ensures Housed(Step(p, Create(info, hash, now)).accts.accounts, HomesAfter(p, info))
  {
    if Accounts.CreateStatus(p.accts, p.orgs.store.orgs, info) == OK {
      var org := p.orgs.store.orgs[IndexOf(p.orgs.store.orgs, info.orgId)];
      assert org in p.orgs.store.orgs && OrgRuns.Tracked(org, p.orgs.born);
    }
  }

  lemma StepKeepsHoused(p: Portal, op: Op)
    requires PortalInv(p) && Enabled(p, op)
    ensures Housed(Step(p, op).accts.accounts, Step(p, op).homes)
  {
    match op
    case Create(info, hash, now) => CreateKeepsHoused(p, info, hash, now);
    case Restart(_, listing) => RestartKeepsHoused(p.accts, listing, p.homes);
    case _ =>
  }

  lemma StepKeepsInv(p: Portal, op: Op)
    requires PortalInv(p) && Enabled(p, op)
    ensures PortalInv(Step(p, op)) && Extends(p.accts, Step(p, op).accts) && SameHomes(p, Step(p, op))
  {
    AccountsKeepInv(p, op);
    StepKeepsHoused(p, op);
    if op.Org? {
      OrgRuns.StepKeepsInv(p.orgs, op.op);
    } else if op.Restart? {
      OrgRuns.StepKeepsInv(p.orgs, OrgRuns.Restart(op.orgListing));
    }
  }

  /** Over every run accounts are never lost, renamed, moved or renumbered, and ids and names stay unique. */
  lemma {:induction false} RunKeepsInv(p: Portal, ops: seq<Op>, p': Portal)
    requires PortalInv(p) && IsRun(p, ops, p')
    ensures PortalInv(p') && Extends(p.accts, p'.accts) && SameHomes(p, p')
    decreases |ops|
  {
    SelfExtends(p.accts);
    if ops != [] {
      var mid := Step(p, ops[0]);
      StepKeepsInv(p, ops[0]);
      RunKeepsInv(mid, ops[1..], p');
      ExtendsTransitive(p.accts, mid.accts, p'.accts);
      HomesTransitive(p, mid, p');
    }
  }

  lemma HomesTransitive(p: Portal, q: Portal, r: Portal)
    requires Extends(p.accts, q.accts) && SameHomes(p, q) && SameHomes(q, r)
    ensures SameHomes(p, r)
  {
    forall i | 0 <= i < |p.accts.accounts|
      ensures var id := p.accts.accounts[i].accountId; id in p.homes && id in r.homes && r.homes[id] == p.homes[id]
    {
      assert Found(p.accts, i, q.accts);
      var id := p.accts.accounts[i].accountId;
      assert q.accts.accounts[ById(q.accts.accounts, id)].accountId == id;
    }
  }

  lemma InitInv()
    ensures PortalInv(Init())
  {
  }

  // ---------------------------------------------------------------- the blacklist

  predicate NoRestart(ops: seq<Op>) {
    forall i :: 0 <= i < |ops| ==> !ops[i].Restart?
  }

  /** The token was handed to logout and the service has not restarted since. */
  predicate LoggedOutSinceRestart(ops: seq<Op>, token: string) {
    exists i :: 0 <= i < |ops| && ops[i] == LogOut(token) && NoRestart(ops[i + 1..])
  }

  lemma NoRestartSplits(ops: seq<Op>)
    requires ops != []
    ensures NoRestart(ops) <==> !ops[0].Restart? && NoRestart(ops[1..])
  {
    assert forall i :: 0 < i < |ops| ==> ops[i] == ops[1..][i - 1];
    assert forall i :: 0 <= i < |ops| - 1 ==> ops[1..][i] == ops[i + 1];
  }

  lemma LogoutSplits(ops: seq<Op>, token: string)
    requires ops != []
    ensures LoggedOutSinceRestart(ops, token) <==>
      (ops[0] == LogOut(token) && NoRestart(ops[1..])) || LoggedOutSinceRestart(ops[1..], token)
  {
    var rest := ops[1..];
    if i :| 0 <= i < |ops| && ops[i] == LogOut(token) && NoRestart(ops[i + 1..]) {
      if i > 0 {
        assert rest[i - 1] == LogOut(token) && rest[i..] == ops[i + 1..];
      }
    }
    if i :| 0 <= i < |rest| && rest[i] == LogOut(token) && NoRestart(rest[i + 1..]) {
      assert ops[i + 1] == LogOut(token) && ops[i + 2..] == rest[i + 1..];
    }
  }

  lemma StepBlacklists(p: Portal, op: Op, token: string)
    ensures token in Step(p, op).accts.invalidated <==>
            op == LogOut(token) || (!op.Restart? && token in p.accts.invalidated)
  {
  }

  /** What the blacklist holds after a run. */
  lemma {:induction false} BlacklistedIff(p: Portal, ops: seq<Op>, p': Portal, token: string)
    requires IsRun(p, ops, p')
    ensures token in p'.accts.invalidated <==>
      LoggedOutSinceRestart(ops, token) || (token in p.accts.invalidated && NoRestart(ops))
    decreases |ops|
  {
    if ops != [] {
      StepBlacklists(p, ops[0], token);
      BlacklistedIff(Step(p, ops[0]), ops[1..], p', token);
      NoRestartSplits(ops);
      LogoutSplits(ops, token);
    }
  }

  /** For every string, after any run: a logout counts until the next restart and not beyond. */
  lemma LogoutLastsUntilRestart(ops: seq<Op>, p: Portal, token: string, t: int)
    requires IsRun(Init(), ops, p)
    ensures VerifyToken(p.accts, p.orgs.store.orgs, token, t) ==
      if LoggedOutSinceRestart(ops, token) then Rejected
      else VerifyToken(p.accts.(invalidated := []), p.orgs.store.orgs, token, t)
  {
    BlacklistedIff(Init(), ops, p, token);
  }

  // ---------------------------------------------------------------- tokens

  /**
    A token issued by a login at time `issued`, followed by any run of both managers, restarts
    included, verifies at time t if and only if it has not expired, its account is active then, and
    the token was not logged out since the last restart. What it then yields is that account with
    the scope of that moment.
   */
  lemma TokenVerifiesIff(ops: seq<Op>, p: Portal, name: string, hash: string, stamp: string, issued: int,
                         ops': seq<Op>, p': Portal, t: int)
    requires IsRun(Init(), ops, p) && LoginStatus(p.accts, name, hash) == OK
    requires IsRun(Step(p, LogIn(name, hash, stamp)), ops', p')
    requires -INT64_MAX - 1 <= issued + 86400 <= INT64_MAX
    ensures var holder := p.accts.accounts[ByName(p.accts.accounts, name)];
      var token := LoginToken(p.accts, name, hash, issued);
      var k := ById(p'.accts.accounts, holder.accountId);
      && k < |p'.accts.accounts|
      && var a := p'.accts.accounts[k];
      && SameHolder(holder, a)
      && VerifyToken(p'.accts, p'.orgs.store.orgs, token, t) ==
         if t <= issued + 86400 && a.isActive &&
            !LoggedOutSinceRestart(ops + [LogIn(name, hash, stamp)] + ops', token)
         then Accepted(PayloadFor(a, p'.orgs.store.orgs, t, issued + 86400))
         else Rejected
  {
    var i, login := ByName(p.accts.accounts, name), LogIn(name, hash, stamp);
    var holder, token := p.accts.accounts[i], LoginToken(p.accts, name, hash, issued);
    WholeRun(ops, p, login, ops', p');
    AccountPersists(ops, p, [login] + ops', p', i);
    BlacklistedIff(Init(), ops + [login] + ops', p', token);
    VerifyIssued(p'.accts, p'.orgs.store.orgs, holder.accountId, issued + TOKEN_LIFETIME, t);
  }

  lemma WholeRun(ops: seq<Op>, p: Portal, op: Op, ops': seq<Op>, p': Portal)
    requires IsRun(Init(), ops, p) && Enabled(p, op) && IsRun(Step(p, op), ops', p')
    ensures IsRun(p, [op] + ops', p') && IsRun(Init(), ops + [op] + ops', p')
  {
    OneStep(p, op);
    RunsCompose(p, [op], Step(p, op), ops', p');
    RunsCompose(Init(), ops, p, [op] + ops', p');
    assert ops + ([op] + ops') == ops + [op] + ops';
  }

  /** Whatever a run does, an account that existed before it is found under the same id. */
  lemma AccountPersists(ops: seq<Op>, p: Portal, ops': seq<Op>, p': Portal, i: nat)
    requires IsRun(Init(), ops, p) && IsRun(p, ops', p') && i < |p.accts.accounts|
    ensures var id := p.accts.accounts[i].accountId;
      && 0 <= id <= INT32_MAX
      && Found(p.accts, i, p'.accts)
      && id in p.homes && id in p'.homes && p'.homes[id] == p.homes[id]
  {
    InitInv();
    RunKeepsInv(Init(), ops, p);
    RunKeepsInv(p, ops', p');
  }

  /** Right after a restart, every unexpired token of an active account verifies, logged out before or not. */
  lemma RestartForgetsLogouts(ops: seq<Op>, p: Portal, i: nat, exp: int,
                              orgListing: seq<OrgInfo>, listing: seq<AccountInfo>, t: int)
    requires IsRun(Init(), ops, p) && Enabled(p, Restart(orgListing, listing))
    requires i < |p.accts.accounts| && p.accts.accounts[i].isActive
    requires t <= exp && -INT64_MAX - 1 <= exp <= INT64_MAX
    ensures var again := Step(p, Restart(orgListing, listing));
      VerifyToken(again.accts, again.orgs.store.orgs, Token(p.accts.accounts[i].accountId, exp), t).Accepted?
  {
    InitInv();
    RunKeepsInv(Init(), ops, p);
    RowOf(p.accts, i);
    var again, id := Step(p, Restart(orgListing, listing)), p.accts.accounts[i].accountId;
    VerifyIssued(again.accts, again.orgs.store.orgs, id, exp, t);
  }

  /**
    A logout ends the string and not the session: an issued token with anything after it that is
    no digit is judged like the token, but only a logout of that very string counts against it.
   */
  lemma LogoutEndsTheString(ops: seq<Op>, p: Portal, i: nat, exp: int, tail: string, t: int)
    requires IsRun(Init(), ops, p) && i < |p.accts.accounts| && Stops(tail)
    requires -INT64_MAX - 1 <= exp <= INT64_MAX
    ensures var a := p.accts.accounts[i];
      var token := Token(a.accountId, exp) + tail;
      VerifyToken(p.accts, p.orgs.store.orgs, token, t) ==
      if t <= exp && a.isActive && !LoggedOutSinceRestart(ops, token)
      then Accepted(PayloadFor(a, p.orgs.store.orgs, t, exp)) else Rejected
  {
    InitInv();
    RunKeepsInv(Init(), ops, p);
    var id := p.accts.accounts[i].accountId;
    PlaceOf(p.accts.accounts, i);
    BlacklistedIff(Init(), ops, p, Token(id, exp) + tail);
    VerifyWithTail(p.accts, p.orgs.store.orgs, id, exp, tail, t);
  }

  // ---------------------------------------------------------------- passwords

  function HashOf(s: AccountStore, id: int): string
    requires ById(s.accounts, id) < |s.accounts|
  {
    s.accounts[ById(s.accounts, id)].passwordHash
  }

  /** The entry is still at its place, with the same id and hash. */
  predicate KeepsHash(s: AccountStore, s': AccountStore, i: nat)
    requires i < |s.accounts|
  {
    && i < |s'.accounts| && s'.accounts[i].accountId == s.accounts[i].accountId
    && s'.accounts[i].passwordHash == s.accounts[i].passwordHash
  }

  lemma ReplaceKeepsHash(s: AccountStore, k: nat, a: AccountInfo, i: nat)
    requires k < |s.accounts| && i < |s.accounts|
    requires k == i ==> a.accountId == s.accounts[i].accountId && a.passwordHash == s.accounts[i].passwordHash
    ensures KeepsHash(s, ReplaceAccount(s, k, a), i)
  {
  }

  lemma UpdateKeepsHash(s: AccountStore, id: int, info: AccountInfo, now: string, i: nat)
    requires i < |s.accounts|
    ensures KeepsHash(s, UpdateAccount(s, id, info, now), i)
  {
    var k := ById(s.accounts, id);
    if k < |s.accounts| {
      ReplaceKeepsHash(s, k, EditedAccount(s.accounts[k], info, now), i);
    }
  }

  lemma DeleteKeepsHash(s: AccountStore, id: int, i: nat)
    requires i < |s.accounts|
    ensures KeepsHash(s, DeleteAccount(s, id), i)
  {
    var k := ById(s.accounts, id);
    if k < |s.accounts| {
      ReplaceKeepsHash(s, k, s.accounts[k].(isActive := false), i);
    }
  }

  lemma OtherChangeKeepsHash(s: AccountStore, id: int, oldHash: string, newHash: string, i: nat)
    requires i < |s.accounts| && s.accounts[i].accountId != id
    ensures KeepsHash(s, ChangePassword(s, id, oldHash, newHash), i)
  {
  }

  lemma CreateKeepsHash(s: AccountStore, orgs: seq<OrgInfo>, info: AccountInfo, hash: string, now: string, i: nat)
    requires i < |s.accounts|
    ensures KeepsHash(s, CreateAccount(s, orgs, info, hash, now), i)
  {
  }

  lemma LoginKeepsHash(s: AccountStore, name: string, hash: string, stamp: string, i: nat)
    requires i < |s.accounts|
    ensures KeepsHash(s, Login(s, name, hash, stamp), i)
  {
    if LoginStatus(s, name, hash) == OK {
      var k := ById(s.accounts, s.accounts[ByName(s.accounts, name)].accountId);
      if k < |s.accounts| {
        ReplaceKeepsHash(s, k, s.accounts[k].(lastLoginAt := stamp), i);
      }
    }
  }

  /** Every step but a restart keeps the entries' places, and their hashes but for a change of password. */
  lemma StepHashInPlace(p: Portal, op: Op, i: nat)
    requires Inv(p.accts) && i < |p.accts.accounts| && !op.Restart?
    requires !(op.ChangePass? && op.id == p.accts.accounts[i].accountId)
    ensures KeepsHash(p.accts, Step(p, op).accts, i)
  {
    match op
    case Update(id, info, now) => UpdateKeepsHash(p.accts, id, info, now, i);
    case Delete(id) => DeleteKeepsHash(p.accts, id, i);
    case ChangePass(id, oldHash, newHash) => OtherChangeKeepsHash(p.accts, id, oldHash, newHash, i);
    case LogIn(name, hash, stamp) => LoginKeepsHash(p.accts, name, hash, stamp, i);
    case Create(info, hash, now) => CreateKeepsHash(p.accts, p.orgs.store.orgs, info, hash, now, i);
    case _ =>
  }

  lemma StepHash(p: Portal, op: Op, id: int)
    requires PortalInv(p) && Enabled(p, op) && ById(p.accts.accounts, id) < |p.accts.accounts|
    requires !(op.ChangePass? && op.id == id)
    ensures var s' := Step(p, op).accts;
      && id in p.accts.rows && id in s'.rows && s'.rows[id].passwordHash == p.accts.rows[id].passwordHash
      && ById(s'.accounts, id) < |s'.accounts|
      && HashOf(s', id) == if op.Restart? then p.accts.rows[id].passwordHash else HashOf(p.accts, id)
  {
    var s, i := p.accts, ById(p.accts.accounts, id);
    AccountsKeepInv(p, op);
    assert Found(s, i, Step(p, op).accts);
    if op.Restart? {
      ListedIsAccount(s, op.listing, ById(op.listing, id));
    } else {
      StepHashInPlace(p, op, i);
      PlaceOf(Step(p, op).accts.accounts, i);
    }
  }

  predicate NoChangeOf(ops: seq<Op>, id: int) {
    forall i :: 0 <= i < |ops| ==> !(ops[i].ChangePass? && ops[i].id == id)
  }

  lemma NoChangeSplits(ops: seq<Op>, id: int)
    requires ops != [] && NoChangeOf(ops, id)
    ensures !(ops[0].ChangePass? && ops[0].id == id) && NoChangeOf(ops[1..], id)
  {
    assert forall i :: 0 <= i < |ops[1..]| ==> ops[1..][i] == ops[i + 1];
  }

  /** Without a change of its own, a password is that of the row once the service has restarted. */
  lemma {:induction false} PasswordAfter(p: Portal, ops: seq<Op>, p': Portal, id: int)
    requires PortalInv(p) && IsRun(p, ops, p') && ById(p.accts.accounts, id) < |p.accts.accounts|
    requires NoChangeOf(ops, id)
    ensures ById(p'.accts.accounts, id) < |p'.accts.accounts| && id in p.accts.rows
    ensures HashOf(p'.accts, id) == if NoRestart(ops) then HashOf(p.accts, id) else p.accts.rows[id].passwordHash
    decreases |ops|
  {
    RowOf(p.accts, ById(p.accts.accounts, id));
    if ops != [] {
      StepKeepsInv(p, ops[0]);
      StepHash(p, ops[0], id);
      NoChangeSplits(ops, id);
      PasswordAfter(Step(p, ops[0]), ops[1..], p', id);
      NoRestartSplits(ops);
    }
  }

  /** The row keeps the hash the account was created with, whatever follows. */
  lemma FirstHashStays(ops: seq<Op>, p: Portal, info: AccountInfo, hash: string, now: string, ops': seq<Op>, p': Portal)
    requires IsRun(Init(), ops, p) && Enabled(p, Create(info, hash, now))
    requires Accounts.CreateStatus(p.accts, p.orgs.store.orgs, info) == OK
    requires IsRun(Step(p, Create(info, hash, now)), ops', p')
    ensures var id := p.accts.nextId;
      && ById(p'.accts.accounts, id) < |p'.accts.accounts|
      && id in p'.accts.rows && p'.accts.rows[id].passwordHash == hash
  {
    InitInv();
    RunKeepsInv(Init(), ops, p);
    var op := Create(info, hash, now);
    StepKeepsInv(p, op);
    RunKeepsInv(Step(p, op), ops', p');
    var s1, i := Step(p, op).accts, |p.accts.accounts|;
    assert s1.accounts[i].accountId == p.accts.nextId && s1.rows[p.accts.nextId].passwordHash == hash;
    assert Found(s1, i, p'.accts);
  }

  /** Between the change and what follows, the hash is the new one, and the row's is what it was. */
  lemma ChangeTakes(p: Portal, id: int, oldHash: string, newHash: string)
    requires PortalInv(p) && ById(p.accts.accounts, id) < |p.accts.accounts| && HashOf(p.accts, id) == oldHash
    ensures var s' := Step(p, ChangePass(id, oldHash, newHash)).accts;
      ById(s'.accounts, id) < |s'.accounts| && HashOf(s', id) == newHash && s'.rows == p.accts.rows
  {
    var i := ById(p.accts.accounts, id);
    AccountsKeepInv(p, ChangePass(id, oldHash, newHash));
    PlaceOf(Step(p, ChangePass(id, oldHash, newHash)).accts.accounts, i);
  }

  /**
    An account is created with the hash `first`, and after any run its password is changed. Over
    whatever follows, short of another change, the new password lasts if and only if the service has
    not restarted since, or it is the one the account was created with.
   */
  lemma ChangedPasswordLastsIff(ops: seq<Op>, p: Portal, info: AccountInfo, first: string, now: string,
                                ops1: seq<Op>, p1: Portal, oldHash: string, newHash: string, ops2: seq<Op>, p2: Portal)
    requires IsRun(Init(), ops, p) && Enabled(p, Create(info, first, now))
    requires Accounts.CreateStatus(p.accts, p.orgs.store.orgs, info) == OK
    requires IsRun(Step(p, Create(info, first, now)), ops1, p1)
    requires var id := p.accts.nextId;
      ById(p1.accts.accounts, id) < |p1.accts.accounts| ==> HashOf(p1.accts, id) == oldHash
    requires IsRun(Step(p1, ChangePass(p.accts.nextId, oldHash, newHash)), ops2, p2)
    requires NoChangeOf(ops2, p.accts.nextId)
    ensures var id := p.accts.nextId;
      && ById(p2.accts.accounts, id) < |p2.accts.accounts|
      && (HashOf(p2.accts, id) == newHash <==> NoRestart(ops2) || first == newHash)
  {
    var id, change := p.accts.nextId, ChangePass(p.accts.nextId, oldHash, newHash);
    FirstHashStays(ops, p, info, first, now, ops1, p1);
    ReachableInv(ops, p, Create(info, first, now), ops1, p1);
    ChangeTakes(p1, id, oldHash, newHash);
    StepKeepsInv(p1, change);
    PasswordAfter(Step(p1, change), ops2, p2, id);
  }

  lemma ReachableInv(ops: seq<Op>, p: Portal, op: Op, ops': seq<Op>, p': Portal)
    requires IsRun(Init(), ops, p) && Enabled(p, op) && IsRun(Step(p, op), ops', p')
    ensures PortalInv(p')
  {
    InitInv();
    RunKeepsInv(Init(), ops, p);
    StepKeepsInv(p, op);
    RunKeepsInv(Step(p, op), ops', p');
  }

  // ---------------------------------------------------------------- logging in after a change

  /**
    The login that follows. While the new password lasts only it logs in; once a restart has
    brought the first one back, only that one does; and neither while the account is inactive.
   */
  lemma LoginAfterChangeIff(ops: seq<Op>, p: Portal, info: AccountInfo, first: string, now: string,
                            ops1: seq<Op>, p1: Portal, oldHash: string, newHash: string, ops2: seq<Op>, p2: Portal,
                            hash: string)
    requires IsRun(Init(), ops, p) && Enabled(p, Create(info, first, now))
    requires Accounts.CreateStatus(p.accts, p.orgs.store.orgs, info) == OK
    requires IsRun(Step(p, Create(info, first, now)), ops1, p1)
    requires var id := p.accts.nextId;
      ById(p1.accts.accounts, id) < |p1.accts.accounts| ==> HashOf(p1.accts, id) == oldHash
    requires IsRun(Step(p1, ChangePass(p.accts.nextId, oldHash, newHash)), ops2, p2)
    requires NoChangeOf(ops2, p.accts.nextId)
    ensures var k := ById(p2.accts.accounts, p.accts.nextId);
      && k < |p2.accts.accounts|
      && (LoginStatus(p2.accts, info.username, hash) == OK <==>
            p2.accts.accounts[k].isActive && hash == if NoRestart(ops2) then newHash else first)
  {
    var id, change := p.accts.nextId, ChangePass(p.accts.nextId, oldHash, newHash);
    FirstHashStays(ops, p, info, first, now, ops1, p1);
    ReachableInv(ops, p, Create(info, first, now), ops1, p1);
    ChangeTakes(p1, id, oldHash, newHash);
    StepKeepsInv(p1, change);
    PasswordAfter(Step(p1, change), ops2, p2, id);
    RunKeepsInv(Step(p1, change), ops2, p2);
    NameStays(ops, p, info, first, now, ops1, p1, change, ops2, p2);
    LoginNames(p2.accts, ById(p2.accts.accounts, id), hash);
  }

  /** The account created under the name is the one found under it. */
  lemma NameStays(ops: seq<Op>, p: Portal, info: AccountInfo, first: string, now: string, ops1: seq<Op>, p1: Portal,
                  change: Op, ops2: seq<Op>, p2: Portal)
    requires IsRun(Init(), ops, p) && Enabled(p, Create(info, first, now)) && Enabled(p1, change)
    requires Accounts.CreateStatus(p.accts, p.orgs.store.orgs, info) == OK
    requires IsRun(Step(p, Create(info, first, now)), ops1, p1) && IsRun(Step(p1, change), ops2, p2)
    ensures var k := ById(p2.accts.accounts, p.accts.nextId);
      k < |p2.accts.accounts| && p2.accts.accounts[k].username == info.username
  {
    var q, i := Step(p, Create(info, first, now)), |p.accts.accounts|;
    InitInv();
    RunKeepsInv(Init(), ops, p);
    StepKeepsInv(p, Create(info, first, now));
    RunCons(p1, change, ops2, p2);
    RunsCompose(q, ops1, p1, [change] + ops2, p2);
    RunKeepsInv(q, ops1 + ([change] + ops2), p2);
    assert q.accts.accounts[i].accountId == p.accts.nextId && q.accts.accounts[i].username == info.username;
    assert Found(q.accts, i, p2.accts);
  }

  lemma LoginNames(s: AccountStore, k: nat, hash: string)
    requires Inv(s) && k < |s.accounts|
    ensures var a := s.accounts[k];
      LoginStatus(s, a.username, hash) == OK <==> a.isActive && a.passwordHash == hash
  {
    assert ByName(s.accounts, s.accounts[k].username) == k;
  }

  /** Rows follow the entries: what update_account and delete_account change is in the row as well. */
  lemma UpdateWritesRow(s: AccountStore, id: int, info: AccountInfo, now: string)
    requires Inv(s) && id in s.rows
    ensures var rows := UpdateAccount(s, id, info, now).rows;
      && rows.Keys == s.rows.Keys && (forall k :: k in rows && k != id ==> rows[k] == s.rows[k])
      && UpdatedAs(rows[id], s.rows[id], info, now)
      && rows[id].passwordHash == s.rows[id].passwordHash && rows[id].lastLoginAt == s.rows[id].lastLoginAt
  {
    RowOf(s, ById(s.accounts, id));
  }

  lemma DeleteWritesRow(s: AccountStore, id: int)
    requires Inv(s) && id in s.rows
    ensures DeleteAccount(s, id).rows == s.rows[id := s.rows[id].(isActive := false)]
  {
    RowOf(s, ById(s.accounts, id));
  }
}
