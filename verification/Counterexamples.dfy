/** Concrete runs on which the account side does not keep what a reader would expect of it. */
module Counterexamples {
  import opened Common
  import opened Decimal
  import opened OrgForest
  import opened OrgQueries
  import opened Accounts
  import opened AccountRuns
  import Devices
  import V = Visibility

  /** A root organization for a tenant, as the request names it. */
  function Request(tenant: string): OrgInfo {
    OrgInfo(0, 0, tenant, tenant, "company", "", "", "", "", true, 0, "", 0, "", "")
  }

  /** The same as stored under an id. */
  function Root(id: int, tenant: string): OrgInfo {
    Request(tenant).(orgId := id, path := "/" + IntToString(id))
  }

  function Account(orgId: int): AccountInfo {
    AccountInfo(0, "ann", "", "", orgId, "", "viewer", "", "", true, "", "", "")
  }

  function Stored(orgId: int, orgName: string): AccountInfo {
    Account(orgId).(accountId := 1, passwordHash := "h", orgName := orgName)
  }

  /** Two root organizations "a" and "b" with ids 1 and 2, and ann's account in the second. */
  function Settled(): Portal {
    var a, b, ann := Root(1, "a"), Root(2, "b"), Stored(2, "b");
    var first, second := Birth(0, 1, "company", None), Birth(1, 2, "company", None);
    Portal(AccountStore([ann], 2, [], map[1 := ann]),
           OrgRuns.World(OrgStore([a, b], 3, map[1 := a, 2 := b]), [first, second], map[1 := first, 2 := second]),
           map[1 := second])
  }

  const SETTLING: seq<Op> := [
    Org(OrgRuns.Create(Request("a"), "")), Org(OrgRuns.Create(Request("b"), "")), Create(Account(2), "h", "")]

  lemma CreateNext(w: OrgRuns.World, tenant: string)
    requires !TenantExists(w.store.orgs, tenant)
    ensures var id, birth := w.store.nextId, Birth(|w.births|, w.store.nextId, "company", None);
      OrgRuns.Step(w, OrgRuns.Create(Request(tenant), "")) ==
      OrgRuns.World(OrgStore(w.store.orgs + [Root(id, tenant)], id + 1, w.store.rows[id := Root(id, tenant)]),
                    w.births + [birth], w.born[id := birth])
  {
  }

  lemma ReachSettled()
    ensures IsRun(Init(), SETTLING, Settled())
  {
    var w0 := OrgRuns.Init();
    CreateNext(w0, "a");
    var w1 := OrgRuns.Step(w0, OrgRuns.Create(Request("a"), ""));
    CreateNext(w1, "b");
    var w2 := OrgRuns.Step(w1, OrgRuns.Create(Request("b"), ""));
    assert w2 == Settled().orgs;
    var p2 := Init().(orgs := w2);
    assert Step(p2, Create(Account(2), "h", "")) == Settled();
    assert SETTLING[1..][1..][1..] == [];
    assert IsRun(Settled(), SETTLING[1..][1..][1..], Settled());
  }

  lemma Reach(ops: seq<Op>, p: Portal)
    requires IsRun(Settled(), ops, p)
    ensures IsRun(Init(), SETTLING + ops, p)
  {
    ReachSettled();
    RunsCompose(Init(), SETTLING, Settled(), ops, p);
  }

  // ---------------------------------------------------------------- a logout is forgotten

  const TOKEN: string := Token(1, TOKEN_LIFETIME)

  /** Ann logs in at time 0 and out again; the service restarts. */
  function LogoutAndRestart(): seq<Op> {
    [LogIn("ann", "h", ""), LogOut(TOKEN), Restart([Root(1, "a"), Root(2, "b")], [Stored(2, "b")])]
  }

  /** After logout and restart the portal is where it was before the login. */
  lemma RestartRestores()
    ensures LoginStatus(Settled().accts, "ann", "h") == OK && LoginToken(Settled().accts, "ann", "h", 0) == TOKEN
    ensures IsRun(Settled(), LogoutAndRestart(), Settled())
  {
    var ops, p := LogoutAndRestart(), Settled();
    assert Step(p, ops[0]) == p;
    var out := p.(accts := p.accts.(invalidated := [TOKEN]));
    assert Step(p, ops[1]) == out;
    RestartBlanks(out);
    RunCons(p, ops[1], [ops[2]], p);
    RunCons(p, ops[0], [ops[1]] + [ops[2]], p);
    assert ops == [ops[0]] + ([ops[1]] + [ops[2]]);
  }

  lemma OrgsReload()
    ensures var w, op := Settled().orgs, OrgRuns.Restart([Root(1, "a"), Root(2, "b")]);
      OrgRuns.Enabled(w, op) && OrgRuns.Step(w, op) == w
  {
    var listing := [Root(1, "a"), Root(2, "b")];
    assert IndexOf(listing, 1) == 0 && IndexOf(listing, 2) == 1;
    MaxIdIsLargest(listing);
  }

  lemma AccountsReload(s: AccountStore)
    requires s == Settled().accts.(invalidated := s.invalidated)
    ensures ListsAccounts([Stored(2, "b")], s.rows) && ReloadedAccounts(s, [Stored(2, "b")]) == Settled().accts
  {
    assert ById([Stored(2, "b")], 1) == 0;
  }

  lemma RestartBlanks(p: Portal)
    requires p == Settled().(accts := p.accts) && p.accts == Settled().accts.(invalidated := p.accts.invalidated)
    ensures IsRun(p, [LogoutAndRestart()[2]], Settled())
  {
    OrgsReload();
    AccountsReload(p.accts);
    OneStep(p, LogoutAndRestart()[2]);
  }

  lemma AnnVerifies(s: AccountStore, orgs: seq<OrgInfo>)
    requires s.accounts == [Stored(2, "b")] && s.invalidated == []
    ensures VerifyToken(s, orgs, TOKEN, 0) == Accepted(PayloadFor(Stored(2, "b"), orgs, 0, TOKEN_LIFETIME))
  {
    VerifyIssued(s, orgs, 1, TOKEN_LIFETIME, 0);
    assert ById(s.accounts, 1) == 0;
  }

  /** A token handed to logout verifies again within its day, once the service has restarted. */
  lemma LogoutIsForgotten()
    ensures var ops, p := SETTLING + LogoutAndRestart(), Settled();
      && IsRun(Init(), ops, p) && LogOut(TOKEN) in ops
      && VerifyToken(p.accts, p.orgs.store.orgs, TOKEN, 0).Accepted?
  {
    RestartRestores();
    Reach(LogoutAndRestart(), Settled());
    assert LogoutAndRestart()[1] == LogOut(TOKEN);
    AnnVerifies(Settled().accts, Settled().orgs.store.orgs);
  }

  /** And without a restart: the same token with an "x" after it. */
  lemma LogoutIsEvaded()
    ensures var ops, p := SETTLING + LogoutAndRestart()[..2], LoggedOut();
      && IsRun(Init(), ops, p) && LogOut(TOKEN) in ops && NoRestart(ops)
      && VerifyToken(p.accts, p.orgs.store.orgs, TOKEN, 0) == Rejected
      && VerifyToken(p.accts, p.orgs.store.orgs, TOKEN + "x", 0).Accepted?
  {
    ReachLoggedOut();
    Reach(LogoutAndRestart()[..2], LoggedOut());
    NoRestartYet();
    TokenIsRejected(LoggedOut());
    SuffixVerifies(LoggedOut());
  }

  lemma NoRestartYet()
    ensures var ops := SETTLING + LogoutAndRestart()[..2]; LogOut(TOKEN) in ops && NoRestart(ops)
  {
    var ops := SETTLING + LogoutAndRestart()[..2];
    assert ops[4] == LogOut(TOKEN);
    assert |ops| == 5 && ops[..3] == SETTLING && ops[3].LogIn?;
  }

  lemma TokenIsRejected(p: Portal)
    requires TOKEN in p.accts.invalidated
    ensures VerifyToken(p.accts, p.orgs.store.orgs, TOKEN, 0) == Rejected
  {
  }

  lemma SuffixVerifies(p: Portal)
    requires p.accts.accounts == [Stored(2, "b")] && p.accts.invalidated == [TOKEN]
    ensures VerifyToken(p.accts, p.orgs.store.orgs, TOKEN + "x", 0).Accepted?
  {
    assert ById(p.accts.accounts, 1) == 0;
    assert |TOKEN + "x"| == |TOKEN| + 1;
    VerifyWithTail(p.accts, p.orgs.store.orgs, 1, TOKEN_LIFETIME, "x", 0);
  }

  function LoggedOut(): Portal {
    Settled().(accts := Settled().accts.(invalidated := [TOKEN]))
  }

  lemma ReachLoggedOut()
    ensures IsRun(Settled(), LogoutAndRestart()[..2], LoggedOut())
  {
    var ops, p := LogoutAndRestart()[..2], Settled();
    assert Step(p, ops[0]) == p;
    assert Step(p, ops[1]) == LoggedOut();
    OneStep(p, ops[1]);
    RunCons(p, ops[0], [ops[1]], LoggedOut());
    assert ops == [ops[0]] + [ops[1]];
  }

  function DeviceOf(tenant: string): Devices.Device {
    Devices.Device(tenant, "d", "", Devices.ONLINE, Devices.IDLE, "", "", "", "", 0, 0, true)
  }

  /** Ann sees nothing of tenant "a" while her token is good, and everything once she has logged out. */
  lemma LoggingOutReveals()
    ensures IsRun(Init(), SETTLING, Settled()) && IsRun(Settled(), LogoutAndRestart()[..2], LoggedOut())
    ensures V.Shown(Settled(), TOKEN, 0, [DeviceOf("a")]) == []
    ensures V.Shown(LoggedOut(), TOKEN, 0, [DeviceOf("a")]) == [DeviceOf("a")]
  {
    ReachSettled();
    ReachLoggedOut();
    HiddenFromAnn();
    RevealedToAnn();
  }

  lemma RevealedToAnn()
    ensures V.Shown(LoggedOut(), TOKEN, 0, [DeviceOf("a")]) == [DeviceOf("a")]
  {
    assert TOKEN in LoggedOut().accts.invalidated;
  }

  lemma HiddenFromAnn()
    ensures V.Shown(Settled(), TOKEN, 0, [DeviceOf("a")]) == []
  {
    var orgs := Settled().orgs.store.orgs;
    AnnVerifies(Settled().accts, orgs);
    OnlySecondShows(orgs, "a");
    var visible := V.VisibleTenants(orgs, Scope(orgs, 2));
    OneHidden(DeviceOf("a"), visible);
  }

  lemma OneHidden(dev: Devices.Device, visible: set<string>)
    requires dev.tenantId !in visible
    ensures V.WithTenantIn([dev], visible) == []
  {
    assert [dev][..0] == [];
  }

  lemma OnlySecondShows(orgs: seq<OrgInfo>, tenant: string)
    requires orgs == [Root(1, "a"), Root(2, "b")] && tenant != "b"
    ensures tenant !in V.VisibleTenants(orgs, Scope(orgs, 2))
  {
    assert IndexOf(orgs, 2) == 1;
    assert orgs[0].path == "/1" && orgs[1].path == "/2";
    var below := WithPrefix(orgs, "/2/");
    assert orgs[..1] == [orgs[0]] && orgs[..1][..0] == [];
    assert WithPrefix(orgs[..1], "/2/") == [] && below == [];
    assert orgs[1].path + "/" == "/2/";
    assert Scope(orgs, 2) == [2];
  }

  // ---------------------------------------------------------------- an organization id is reused

  /** The account's organization is deleted, the service restarts, and tenant "c" gets the same id. */
  function Replace(): seq<Op> {
    [Org(OrgRuns.Delete(2)), Restart([Root(1, "a")], [Stored(2, "b")]), Org(OrgRuns.Create(Request("c"), ""))]
  }

  function Replaced(): Portal {
    var a, c, ann := Root(1, "a"), Root(2, "c"), Stored(2, "b");
    var first, second := Birth(0, 1, "company", None), Birth(1, 2, "company", None);
    var third := Birth(2, 2, "company", None);
    Portal(AccountStore([ann], 2, [], map[1 := ann]),
           OrgRuns.World(OrgStore([a, c], 3, map[1 := a, 2 := c]), [first, second, third], map[1 := first, 2 := third]),
           map[1 := second])
  }

  lemma DeleteSecond()
    ensures var w := Settled().orgs;
      OrgRuns.Step(w, OrgRuns.Delete(2)) == w.(store := OrgStore([Root(1, "a")], 3, map[1 := Root(1, "a")]))
  {
    var w, a, b := Settled().orgs, Root(1, "a"), Root(2, "b");
    assert IndexOf(w.store.orgs, 2) == 1;
    assert w.store.orgs[..1] == [a] && w.store.orgs[2..] == [];
    assert map[1 := a, 2 := b] - {2} == map[1 := a];
  }

  /** What is left of the organizations before the third one is created. */
  function Emptied(): Portal {
    Settled().(orgs := Settled().orgs.(store := OrgStore([Root(1, "a")], 2, map[1 := Root(1, "a")])))
  }

  lemma ReachEmptied()
    ensures IsRun(Settled(), Replace()[..2], Emptied())
  {
    var ops, p, a := Replace()[..2], Settled(), Root(1, "a");
    DeleteSecond();
    var p1 := Step(p, ops[0]);
    assert p1 == p.(orgs := p.orgs.(store := OrgStore([a], 3, map[1 := a])));
    AccountsReload(p.accts);
    assert Step(p1, ops[1]) == Emptied();
    OneStep(p1, ops[1]);
    RunCons(p, ops[0], [ops[1]], Emptied());
    assert ops == [ops[0]] + [ops[1]];
  }

  lemma CreateThird()
    ensures Step(Emptied(), Org(OrgRuns.Create(Request("c"), ""))) == Replaced()
  {
    CreateNext(Emptied().orgs, "c");
    assert [Root(1, "a")] + [Root(2, "c")] == [Root(1, "a"), Root(2, "c")];
  }

  lemma ReachReplaced()
    ensures IsRun(Settled(), Replace(), Replaced())
  {
    var op := Replace()[2];
    ReachEmptied();
    CreateThird();
    OneStep(Emptied(), op);
    RunsCompose(Settled(), Replace()[..2], Emptied(), [op], Replaced());
    assert Replace() == Replace()[..2] + [op];
  }

  lemma SecondShows(orgs: seq<OrgInfo>)
    requires |orgs| == 2 && orgs[0].orgId == 1 && orgs[1].orgId == 2
    ensures orgs[1].tenantId in V.VisibleTenants(orgs, Scope(orgs, 2))
  {
    assert Scope(orgs, 2)[0] == 2 && IndexOf(orgs, 2) == 1;
  }

  lemma NothingLeft(o: OrgInfo)
    ensures !V.AtOrBelow(Replaced().orgs, Birth(1, 2, "company", None), o)
  {
  }

  /** The token of an account created in tenant "b" opens tenant "c", created after "b" was deleted. */
  lemma ReusedIdShowsAnotherTenant()
    ensures var ops, p := SETTLING + Replace(), Replaced();
      && IsRun(Init(), ops, p)
      && var verdict := VerifyToken(p.accts, p.orgs.store.orgs, TOKEN, 0);
      && verdict.Accepted? && "c" in V.VisibleTenants(p.orgs.store.orgs, verdict.payload.orgScope)
      && p.homes[1] == Birth(1, 2, "company", None) && forall o :: !V.AtOrBelow(p.orgs, p.homes[1], o)
  {
    var p := Replaced();
    ReachReplaced();
    Reach(Replace(), p);
    AnnVerifies(p.accts, p.orgs.store.orgs);
    SecondShows(p.orgs.store.orgs);
    forall o
      ensures !V.AtOrBelow(p.orgs, p.homes[1], o)
    {
      NothingLeft(o);
    }
  }
}
