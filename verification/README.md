# Verified models of the IoT device cloud

The service keeps its business state in memory: organizations, accounts, devices, orders and
firmware rollouts, each behind a manager, fed by MQTT messages and HTTP calls. It also carries
several hand-written codecs. This project models the managers and codecs in Dafny and proves
what they promise over every input and every run.

`dafny verify dfyconfig.toml` checks everything.

| files | component |
|---|---|
| `OrgForest`, `OrgRuns`, `OrgQueries`, `OrgTree`, `OrgManager` | organizations: ids, materialized paths, subtree queries, the tree, restarts |
| `Accounts`, `AccountRuns`, `AccountManager` | accounts, login, logout, token verification, restarts of both managers |
| `Visibility`, `Counterexamples` | which devices a logged-in account is shown; concrete runs that break what one would expect |
| `Devices`, `DeviceManager`, `OfflineSweep` | the tenant/device registry, routed messages, the offline sweep |
| `Ota`, `FirmwareSelection` | grayscale rollout, the latest-firmware query |
| `Orders` | the order queue and history |
| `Mqtt`, `MqttLink` | the embedded MQTT 3.1.1 codec and its receive loop |
| `LogLines`, `LogFiles`, `LogRuns` | log lines, writing and rotation |
| `Base64`, `Ulid`, `Topics` | the upload's base64 loop, ULID encoding, topic parsing and printing |
| `Common`, `Decimal`, `Radix` | status codes, `to_string` / `stoi`, digit strings |

A manager is a class whose methods update its fields as the service does. Each method is proved
equal to a function on values. What each function does is stated on fields, refusals included, by a
lemma that does not name its body, and the theorems are about runs of those functions. Clocks,
password hashes, `std::hash`, hash-map iteration order, directory order and the chunks `recv`
returns are parameters or arbitrary choices. Database writes succeed.

Main results, hardest first:

- **Paths index the forest.** In every run of create, update, delete and restart, the prefix test
  on paths decides creation-time ancestry between live organizations (`DescendantsAreSubtree`),
  although deletes orphan inactive children and a restart can hand out an id again. The forest is
  made of births with serial numbers, so a reused id is a different birth. Scopes are laminar, a new
  organization never adopts an orphan, and the recursive tree shows each organization whose whole
  chain is live and active exactly once.
- **From login to the device list.** Over runs of both managers with restarts, a token verifies exactly
  until it expires, its account is deactivated or it is logged out, the logout counting until the next
  restart (`TokenVerifiesIff`). While it does, and unless the account is a super_admin, the device query
  shows exactly the devices of the live organizations created at or below the one the account was created
  in, as long as that organization stands; once the token fails it shows every device (`HolderIsShown`,
  `QueryDevices`).
- **Framing survives any chunking.** However `recv` cuts the stream, the receive loop returns the
  packets that were sent; on a failing link, a prefix of them. A list of `publish` calls arrives as that
  list of messages if and only if each of them is deliverable (`DeliverFramed`, `EndToEnd`).
- **The log keeps its newest lines.** Whatever directory it starts from, what the files hold after any
  run, less the repeated first lines, is a suffix of everything written (`FilesHoldTheNewestLines`).
- **The two-level registry refines a one-level map** (`StepRefinesFlat`) in every schedule of locked steps
  that keeps each device in one tenant, and it is known which do (`TidyThroughoutIff`). In all of these a
  sweep leaves the registry as the other steps alone would have, but for the statuses of devices that
  were stale at its snapshot (`InterleavedEqualsOthersAlone`).

Some promises do not hold as one would wish, and are stated with their exact conditions:

- A PUBLISH arrives unchanged if and only if its QoS is at least 1 and, modulo 128, below 32, and its
  topic is shorter than 65536 bytes: the receive loop tests the packet type where it means the QoS flags
  and always skips a packet id (`PublishRoundTrip`, `QosZeroLosesTwoBytes`).
- A CONNECT asks for the will at QoS 1 whatever `set_will_message` was given (`ConnectRoundTrip`).
- The latest-firmware loop is right in every directory order if and only if `Decidable` holds: some
  major version is at least 1, or the greatest 0.x file is at least as young as every unversioned one,
  or all files are unversioned and one has a positive time (`LatestInEveryOrderIff`, `OrderMatters`).
- A sweep's update finds its device still silent if and only if the last heartbeat or registration of
  that id since the snapshot, if there was one, carries a time stale at the snapshot, and it loses no
  work status if and only if the last one set since, if any, is the snapshot's (`MarkIsRightIff`,
  `LateHeartbeatIsOverridden`, `LateReportIsOverridden`).
- The router resolves a heartbeat's tenant and product and processes it under three separate locks. With
  nothing in between, a routed heartbeat is one step (`UninterruptedHeartbeat`). A step keeps each device
  in one tenant if and only if no other tenant has the id when it is processed or registered
  (`StepKeepsInvIff`); a migration after the resolving leaves the device under both
  (`InterruptedHeartbeatDuplicates`). The theorems on runs and interleavings take processing as a step of
  its own, under that condition.
- A logged-out token stays rejected until the next restart and not beyond: the blacklist is not stored
  (`LogoutLastsUntilRestart`, `RestartForgetsLogouts`, `LogoutIsForgotten`). It also holds strings: the
  same token with a letter after it is another string and still verifies (`LogoutEndsTheString`,
  `LogoutIsEvaded`).
- The device query filters for a token that verifies and otherwise not at all, so an expired or
  logged-out token shows every device (`HolderIsShown`, `LogoutShowsEverything`, `LoggingOutReveals`).
- A changed password survives a restart if and only if it is the one the account was created with,
  because the new hash is never written to the row (`ChangedPasswordLastsIff`).
- An account whose organization was deleted follows the id: after a restart the id can go to another
  organization, and the account then sees that one's tenant (`ShowsSubtreeIff`,
  `ReusedIdShowsAnotherTenant`). A delete that leaves descendants, which it can as long as the children
  are inactive, hides them from the account (`DeleteLeavesStandingIff`).
- The base64 loop skips a character outside the alphabet if and only if it is not NUL, which the
  alphabet's own terminator matches as a 65th digit (`SkippedIff`).

## Model

| member | source | states |
|---|---|---|
| OrgManagers.OrgManager.Load | src/app/organization/org_manager.cpp:93-106 | a fresh manager holds the listed rows and its next id is one more than the largest |
| OrgManagers.OrgManager.Validate | src/app/organization/org_manager.cpp:114-126 | parent must exist and be active, a company takes only departments, tenant ids are unique |
| OrgManagers.OrgManager.Create | src/app/organization/org_manager.cpp:111-169 | new id, level, path, time stamps, database row and the parent's children count; nothing on refusal |
| OrgManagers.OrgManager.Update | src/app/organization/org_manager.cpp:171-197 | only non-empty fields, the active flag and the time change, in memory and in the row |
| OrgManagers.OrgManager.Delete | src/app/organization/org_manager.cpp:199-215 | hard delete of entry and row unless an active child exists |
| OrgManagers.OrgManager.TenantTaken | src/app/organization/org_manager.cpp:312-316 | whether some organization has the tenant id |
| OrgManagers.OrgManager.HasActiveChildren | src/app/organization/org_manager.cpp:318-322 | only active children count |
| OrgManagers.OrgManager.GetDescendants | src/app/organization/org_manager.cpp:280-291 | the organizations whose path starts with this one's path and a slash, in order; none for an unknown id |
| OrgManagers.OrgManager.GetOrgScope | src/app/organization/org_manager.cpp:293-301 | the id itself, even if unknown, then its descendants' ids |
| OrgManagers.OrgManager.BuildSubtree | src/app/organization/org_manager.cpp:250-278 | the recursion over parent_id terminates and builds the specified tree; the root query is the case of parent 0 |
| OrgRuns.CreateRefusals | src/app/organization/org_manager.cpp:114-126 | each refusal of create_org with its own condition: no active parent, a company taking something else than a department, a tenant id in use |
| OrgRuns.CreateOnFields | src/app/organization/org_manager.cpp:128-169 | the new entry comes last with the request's fields, the next id and the time; only the parent's children count changes besides; the row is the entry |
| OrgRuns.UpdateOnFields | src/app/organization/org_manager.cpp:171-197 | in memory and in the row the flag is the request's, each text is the request's if not empty, every other field and entry is as before; nothing for an unknown id |
| OrgRuns.DeleteRefusals | src/app/organization/org_manager.cpp:202-209 | each refusal of delete_org with its own condition: unknown, or an active child |
| OrgRuns.DeleteOnFields | src/app/organization/org_manager.cpp:199-215 | exactly one entry and row gone, or nothing on refusal |
| OrgRuns.RestartOnFields | src/app/organization/org_manager.cpp:93-106 | after a restart the next id is one more than the largest listed, or 1 |
| OrgForest.EqualPathsEqualIds | src/app/organization/org_manager.cpp:131-139 | equal paths have equal last ids and equal parent paths |
| OrgForest.PrefixFindsAncestor | src/app/organization/org_manager.cpp:286-289 | a path that starts with another path and a slash runs through an ancestor with exactly that path, so "/1/5" never matches "/1/50" |
| OrgForest.AncestorIsPrefix | src/app/organization/org_manager.cpp:131-139 | an ancestor's path and a slash start every descendant's path |
| OrgQueries.PrefixSplits | src/app/organization/org_manager.cpp:286-290 | the prefix test keeps the order and multiplicity of the list |
| OrgRuns.StepKeepsInv | src/app/organization/org_manager.cpp:93-215 | each step keeps ids and tenants unique, every entry as its birth says, no impostor on a live chain, rows equal to memory up to children counts |
| OrgRuns.RunKeepsInv | src/app/organization/org_manager.cpp:93-215 | so does every run of create, update, delete and restart |
| OrgRuns.DeleteOrphansOnlyInactive | src/app/organization/org_manager.cpp:206-215 | whoever a delete leaves without a parent was inactive |
| OrgQueries.PrefixIffAncestor | src/app/organization/org_manager.cpp:280-291 | for live organizations the prefix test is creation-time ancestry, both directions |
| OrgQueries.DescendantsAreSubtree | src/app/organization/org_manager.cpp:280-291 | in every reachable world get_descendants returns exactly the live part of the creation-time subtree, once each |
| OrgQueries.ScopeMembers | src/app/organization/org_manager.cpp:293-301 | membership in a scope: the id itself or a live organization created below a live one |
| OrgQueries.ScopesAreLaminar | src/app/organization/org_manager.cpp:293-301 | two scopes are nested or disjoint, for live and dead ids alike |
| OrgQueries.NextIdIsFresh | src/app/organization/org_manager.cpp:98-103 | the next id exceeds every id on a live chain and every parent_id, even a dangling one |
| OrgQueries.CreateAdoptsNobody | src/app/organization/org_manager.cpp:128-149 | after any deletes and restarts a new organization has no children and no descendants |
| OrgQueries.CompaniesHoldDepartments | src/app/organization/org_manager.cpp:119-121 | in every reachable world whatever stands directly below a company is a department, although later updates and restarts pass through |
| OrgTree.ReachableStoresClimb | src/app/organization/org_manager.cpp:266-278 | in every reachable store a child's id exceeds its parent's, which bounds the tree recursion |
| OrgTree.TreeIsExact | src/app/organization/org_manager.cpp:250-278 | the tree holds each active organization with a live, active chain to a root exactly once, nothing else, and its edges are parent_id edges |
| OrgTree.TreeRefinesIndex | src/app/organization/org_manager.cpp:266-291 | in every reachable world the tree built below a live organization holds, once each, exactly those the path index finds below it that nothing deleted or inactive separates from it |
| OrgTree.DeactivatedLeavesTree | src/app/organization/org_manager.cpp:171-278 | in every reachable world, after an update that deactivates, neither that organization nor anything below it is in the tree |
| AccountManagers.AccountManager.Load | src/app/organization/account_manager.cpp:71-89 | a new manager holds the listed rows, its next id is one more than the largest, and its blacklist is empty |
| AccountManagers.AccountManager.CreateOne | src/app/organization/account_manager.cpp:94-131 | unique name, existing organization, valid role; fresh id, hash and organization name, in memory and as a row |
| AccountManagers.AccountManager.UpdateOne | src/app/organization/account_manager.cpp:133-155 | only non-empty fields, the active flag and the time change, in memory and in the row, which keeps its name, hash, last login and creation time |
| AccountManagers.AccountManager.DeleteOne | src/app/organization/account_manager.cpp:173-184 | deletion deactivates, in memory and in the row |
| AccountManagers.AccountManager.ChangePasswordOf | src/app/organization/account_manager.cpp:157-171 | the hash changes in memory when the old one matches; the row does not |
| AccountManagers.AccountManager.LogInWith | src/app/organization/account_manager.cpp:189-238 | with unique names, OK iff some account has the name, is active and has the password's hash, and each refusal with its own condition; on success the token for the account with a day to live |
| AccountManagers.AccountManager.LogOutToken | src/app/organization/account_manager.cpp:240-244 | the token joins the blacklist |
| AccountManagers.AccountManager.Verify | src/app/organization/account_manager.cpp:246-285 | blacklist, prefix, number parsing with its exceptions, expiry, active account, payload with the current scope |
| Accounts.LoginOutcomes | src/app/organization/account_manager.cpp:189-207 | each outcome of login with its own condition on the accounts |
| Accounts.LoginOnFields | src/app/organization/account_manager.cpp:215-226 | a login stamps its account and changes nothing else |
| Accounts.CreateRefusals | src/app/organization/account_manager.cpp:97-108 | each refusal of create_account with its own condition |
| Accounts.CreateOnFields | src/app/organization/account_manager.cpp:110-127 | the new account comes last, active, with the request's fields, the next id, the hash and its organization's name; the row is the same |
| Accounts.UpdateOnFields | src/app/organization/account_manager.cpp:136-150 | one account changes: the flag always, each text if not empty; hash, name, organization and last login stay |
| Accounts.DeleteOnFields | src/app/organization/account_manager.cpp:176-181 | one account loses its active flag and nothing else |
| Accounts.ChangeOnFields | src/app/organization/account_manager.cpp:162-169 | one account's hash changes, iff the old one matches, and nothing else at all |
| Accounts.PermissionsAreTheTable | src/app/organization/account_manager.cpp:15-69 | for every role and permission, the table read by role agrees with the table read by permission; unknown roles have none |
| Accounts.ReadTokenCases | src/app/organization/account_manager.cpp:255-263 | for every string: prefix, first colon and two numbers, or an exception, or no token |
| Accounts.VerdictCases | src/app/organization/account_manager.cpp:246-285 | for every string of a token's form that is not blacklisted: an exception iff a number does not parse, accepted iff unexpired for an active account |
| Accounts.OtherStringsAreRejected | src/app/organization/account_manager.cpp:250-260 | a blacklisted string and one without prefix or colon is rejected |
| Accounts.PayloadOnFields | src/app/organization/account_manager.cpp:274-282 | the payload carries the account's id, name, organization, role and permissions, the moment and the expiry |
| Accounts.VerifyIssued | src/app/organization/account_manager.cpp:333-340 | printing and parsing a token agree: an issued token never throws and is judged by blacklist, expiry and account alone |
| Accounts.VerifyWithTail | src/app/organization/account_manager.cpp:246-285 | printing and parsing agree with trailing characters too: stoll stops at the first that is no digit |
| AccountRuns.RunKeepsInv | src/app/organization/account_manager.cpp:76-184 | over every run with restarts account ids and names stay unique, no account is lost, renumbered, renamed or moved, rows match up to hash and last login, and row hashes never change |
| AccountRuns.UpdateWritesRow | src/middleware/storage/database.cpp:1238-1251 | the row changes as the entry does but keeps hash and last login; no other row changes |
| AccountRuns.TokenVerifiesIff | src/app/organization/account_manager.cpp:189-285 | after any run with restarts a token verifies iff it has not expired, its account is active and it was not logged out since the last restart, and then names that account with the scope of that moment |
| AccountRuns.LogoutLastsUntilRestart | src/app/organization/account_manager.cpp:240-253 | any string is rejected if logged out since the last restart, and is otherwise judged as if never logged out |
| AccountRuns.RestartForgetsLogouts | src/main.cpp:257-265 | right after a restart every unexpired token of an active account verifies, logged out before or not |
| AccountRuns.LogoutEndsTheString | src/app/organization/account_manager.cpp:246-263 | an issued token with anything after it that is no digit is judged like the token, and only a logout of that very string since the last restart counts |
| AccountRuns.FirstHashStays | src/app/organization/account_manager.cpp:94-171 | over every run the row keeps the hash the account was created with |
| AccountRuns.ChangedPasswordLastsIff | src/app/organization/account_manager.cpp:157-171 | from creation through any run and a change, the new password lasts iff the service has not restarted since or it is the one the account was created with |
| AccountRuns.LoginAfterChangeIff | src/app/organization/account_manager.cpp:157-207 | after a change of password and any run, a login succeeds iff the account is active and the hash is the new one, or the first one once the service has restarted |
| Counterexamples.LogoutIsForgotten | src/app/organization/account_manager.cpp:240-253 | a concrete run: login, logout, restart, and the token verifies within its day |
| Counterexamples.LogoutIsEvaded | src/app/organization/account_manager.cpp:246-263 | a concrete run without restart: the logged-out token is rejected and the token with "x" after it accepted |
| Decimal.ParseIntOfIntToString | src/app/organization/account_manager.cpp:262-263 | stoi and stoll read back what to_string printed, whatever follows that is no digit |
| Decimal.ParseIntReads | src/app/organization/account_manager.cpp:262-263 | blanks, an optional sign, digits and anything else: the value if it is in range, otherwise an exception |
| Decimal.PrintedForm | src/app/organization/org_manager.cpp:131-139 | to_string prints digits without a leading zero, and a minus sign exactly for negative numbers |
| Visibility.FilterDevices | src/main.cpp:357-375 | the two loops compute what a caller is shown: everything without a caller or as super_admin, otherwise the devices of the tenants in scope |
| Visibility.FilterSplits | src/main.cpp:370-374 | the filter works list part by list part, so it keeps the order and multiplicity of the device list |
| Visibility.QueryDevices | src/main.cpp:87-98 | the query as a whole: no token, a rejected token and a thrown exception told apart |
| Visibility.OneOwner | src/app/organization/org_manager.cpp:124-126 | in every reachable world a tenant belongs to at most one live organization |
| Visibility.SeesExactlyItsSubtree | src/main.cpp:360-375 | the scope of an id shows a tenant iff the live organization owning it has that id or was created below the one that has |
| Visibility.ShowsSubtreeIff | src/main.cpp:360-375 | the scope shows exactly the live subtree of an organization, by birth and not by id, iff it is live itself, or was deleted with everything below it and its id is unused |
| Visibility.DeleteLeavesStandingIff | src/app/organization/org_manager.cpp:199-215 | after a delete the scope of the deleted organization is still exact iff it had no descendants, active or not |
| Visibility.TokenHolderSeesItsSubtree | src/main.cpp:357-375 | after any run of both managers with restarts, the scope in a verified token's payload is that of the organization the account was created in, and is exact for it iff that organization stands |
| Visibility.HolderIsShown | src/main.cpp:357-375 | for every run, account, token time and device list: all devices unless the token restricts, and then, if the home stands, exactly those of the live organizations at or below it |
| Visibility.LogoutShowsEverything | src/main.cpp:359-361 | after its logout a token shows every device, and before it never more |
| Counterexamples.LoggingOutReveals | src/main.cpp:359-361 | a concrete run: a viewer is shown nothing of another tenant until logging out |
| Counterexamples.ReusedIdShowsAnotherTenant | src/app/organization/org_manager.cpp:93-106 | a concrete run: after delete and restart the id goes to a new tenant, which the old account then sees |
| DeviceManagers.DeviceManager.ProcessHeartbeat | src/app/device/device_manager.cpp:15-49 | a known device is refreshed and online, an unknown one registered |
| DeviceManagers.DeviceManager.RegisterDevice | src/app/device/device_manager.cpp:64-77 | the device is filed under its own tenant and id |
| DeviceManagers.DeviceManager.RemoveDevice | src/app/device/device_manager.cpp:79-89 | the device goes, and the tenant with its last device |
| DeviceManagers.DeviceManager.UpdateDeviceStatus | src/app/device/device_manager.cpp:91-105 | both statuses of one device change, or nothing |
| DeviceManagers.DeviceManager.FindDeviceById | src/app/device/device_manager.cpp:124-131 | finds a device whatever order the tenants come in |
| DeviceManagers.DeviceManager.MigrateDevice | src/app/device/device_manager.cpp:107-122 | moves the device from a tenant that has it to the new one, or reports it unknown |
| DeviceManagers.DeviceManager.RouteHeartbeat | src/app/message_router.cpp:69-91 | tenant and product are resolved by device id, "default" for an unknown one; an id under two tenants resolves to one of them |
| DeviceManagers.DeviceManager.RouteStatus | src/app/message_router.cpp:151-164 | a status message sets network status and IDLE for a tenant that has the device, and does nothing for an unknown device |
| DeviceManagers.DeviceManager.ListOfflineDevices | src/app/device/device_manager.cpp:171-185 | exactly the devices silent for longer than the timeout, each once |
| DeviceManagers.DeviceManager.CheckOfflineDevices | src/app/device/device_manager.cpp:190-199 | uninterrupted, sets exactly the stale devices OFFLINE and keeps every other field |
| DeviceManagers.DeviceManager.TotalDeviceCount | src/app/device/device_manager.cpp:227-232 | the number of (tenant, device) pairs, which is the number of devices when each is in one tenant |
| Devices.FindIsOrderIndependent | src/app/device/device_manager.cpp:124-131 | with each device in one tenant the lookup has one answer |
| Devices.HeartbeatOnFields | src/app/device/device_manager.cpp:15-49 | the device is ONLINE at that time; a new one is idle, activated and filed under its ids; a known one keeps every other field; no other key changes |
| Devices.RegisterOnFields | src/app/device/device_manager.cpp:64-77 | the registered device is there as given and no other key changes |
| Devices.RemoveOnFields | src/app/device/device_manager.cpp:79-89 | the device goes, the tenant iff it was its last, and no other key changes |
| Devices.SetStatusOnFields | src/app/device/device_manager.cpp:91-105 | both statuses of a held device and nothing else change |
| Devices.StepKeepsFiled | src/app/device/device_manager.cpp:15-131 | every step keeps devices under their own tenant and id, also with an id under two tenants |
| Devices.StepKeepsInvIff | src/app/device/device_manager.cpp:15-131 | a locked step keeps each device in one tenant iff it processes or registers the device under the tenant that has it, or the id is new |
| Devices.UninterruptedHeartbeat | src/app/message_router.cpp:83-91 | resolving and processing with nothing in between is the routed heartbeat |
| Devices.InterruptedHeartbeatDuplicates | src/app/message_router.cpp:83-91 | a migration between resolving and processing leaves the device under both tenants |
| Devices.TidyThroughoutIff | src/app/device/device_manager.cpp:15-131 | whatever the schedule, devices stay in one tenant throughout iff every step is enabled |
| Devices.RunKeepsInv | src/app/device/device_manager.cpp:15-131 | every run of enabled steps, with routed messages as one step or with processing on its own, keeps each device in one tenant and filed under its own fields |
| Devices.StepRefinesFlat | src/app/device/device_manager.cpp:15-131 | each registry step is the obvious step on a map keyed by device id alone |
| Devices.MigrationConserves | src/app/device/device_manager.cpp:107-122 | migration keeps the number and the set of devices and changes only that device's tenant |
| OfflineSweep.SweepIsExact | src/app/device/device_manager.cpp:190-199 | marking a snapshot marks exactly the stale devices |
| OfflineSweep.EveryInterleavingIsSafe | src/app/device/device_manager.cpp:171-199 | in every interleaving a sweep update adds and removes no key, changes no heartbeat time and marks only a key stale at the snapshot |
| OfflineSweep.InterleavedEqualsOthersAlone | src/app/device/device_manager.cpp:171-199 | after every interleaving with enabled steps, processing on its own among them, the registry is the one the other steps alone give, up to the two statuses of devices stale at the snapshot |
| OfflineSweep.RunGivesNetwork | src/app/device/device_manager.cpp:15-131 | after any run a device carries the last network status given to it: ONLINE by a heartbeat, its own by a report, an update or a registration |
| OfflineSweep.MarkIsRightIff | src/app/device/device_manager.cpp:190-199 | after any run since the snapshot a marked device is still silent iff its last heartbeat or registration in the run, if any, is stale at the snapshot; its work status survives iff the last one set in the run, if any, is the snapshot's |
| OfflineSweep.LateHeartbeatIsOverridden | src/app/device/device_manager.cpp:190-199 | the shortest run against it: a heartbeat between snapshot and update does not prevent OFFLINE |
| OfflineSweep.LateReportIsOverridden | src/app/device/device_manager.cpp:190-199 | a status report in between is overwritten by the snapshot's work status |
| Ota.OtaManager.PushToDevice | src/app/ota/ota_manager.cpp:55-92 | a pending record for a known firmware version, an error otherwise |
| Ota.OtaManager.KnownTargets | src/app/ota/ota_manager.cpp:124-138 | without a registry the candidates are the finished records of other versions |
| Ota.OtaManager.PushGrayscale | src/app/ota/ota_manager.cpp:94-170 | refusals change nothing; otherwise the candidates in the buckets below the percentage are pushed |
| Ota.GrayscaleIsExact | src/app/ota/ota_manager.cpp:110-162 | for every registry and listing order the records change exactly for the eligible devices in the chosen buckets |
| Ota.GrayscaleOnFields | src/app/ota/ota_manager.cpp:110-162 | device by device: of the product, activated, online, not at fault, not on the version and in a bucket below the percentage, and then a pending record with the firmware's fields; every other id keeps its record |
| Ota.FallbackOnFields | src/app/ota/ota_manager.cpp:124-162 | without a registry the same for finished records of other versions |
| Ota.PushesNest | src/app/ota/ota_manager.cpp:147-162 | whatever a push gives a device it gets again at a larger percentage, in any two listing orders |
| Ota.PushesWiden | src/app/ota/ota_manager.cpp:110-162 | a push followed by one at least as wide leaves what the second alone would, in any two listing orders, also with an id under two tenants; a repeat changes nothing |
| Ota.FallbackWidens | src/app/ota/ota_manager.cpp:124-162 | the same without a registry, where the first push changes the candidates of the second |
| Ota.FullPushTakesEveryone | src/app/ota/ota_manager.cpp:172-175 | at 100 per cent exactly the eligible devices have a pending record and no other record changes |
| Ota.OtaManager.PushAll | src/app/ota/ota_manager.cpp:172-175 | as a call on the manager, with its refusal: every eligible listed id gets a record under the tenant of such a device; with unique ids, exactly the eligible devices |
| Ota.OtaManager.PushTwice | src/app/ota/ota_manager.cpp:94-170 | two calls in a row leave what the wider second one alone would, with and without a registry |
| FirmwareSelection.SelectLatest | src/main.cpp:1111-1143 | the loop computes the specified fold |
| FirmwareSelection.TiesKeepTheFirst | src/main.cpp:1131-1143 | of two files with the same version and time the first one stays |
| FirmwareSelection.LatestInEveryOrderIff | src/main.cpp:1111-1143 | the loop finds a maximal (major, minor, patch, mtime) in every directory order iff the directory is decidable |
| FirmwareSelection.OrderMatters | src/main.cpp:1132-1135 | two orders of a 0.x and an unversioned file give two answers |
| Orders.OrderManager.CreateOrder | src/app/order/order_manager.cpp:24-34 | appended to the queue unless ten are waiting |
| Orders.OrderManager.CancelOrder | src/app/order/order_manager.cpp:36-54 | a queued order moves to the history as CANCELLED; one being brewed is refused |
| Orders.OrderManager.ConfirmOrderPayment | src/app/order/order_manager.cpp:56-65 | the first queued order with the id becomes PAID |
| Orders.OrderManager.StartBrewingOrder | src/app/order/order_manager.cpp:81-114 | a queued order becomes the current one, BREWING, when none is; a failed check drops it |
| Orders.OrderManager.CompleteBrewing | src/app/order/order_manager.cpp:116-126 | the current order enters the history COMPLETED |
| Orders.OrderManager.FailBrewing | src/app/order/order_manager.cpp:128-139 | the current order enters the history FAILED with its reason |
| Orders.OrderManager.StopAll | src/app/order/order_manager.cpp:142-151 | the current order is dropped |
| Orders.OrderManager.ListAllOrders | src/app/order/order_manager.cpp:190-205 | current, queue, history; as a bag of tickets (id and details), everything the shop still knows |
| Orders.ListedInOrder | src/app/order/order_manager.cpp:190-205 | current order first, then queue and history, each in its own order |
| Orders.OrderManager.TotalCount | src/app/order/order_manager.cpp:207-212 | the length of what list_all_orders returns |
| Orders.CreateOnFields | src/app/order/order_manager.cpp:24-34 | an order joins the queue unless ten are waiting |
| Orders.CancelOnFields | src/app/order/order_manager.cpp:36-54 | each outcome with its condition; the first queued order with the id enters the history CANCELLED, otherwise as it was |
| Orders.PayOnFields | src/app/order/order_manager.cpp:56-65 | exactly the first queued order with the id becomes PAID |
| Orders.StartOnFields | src/app/order/order_manager.cpp:81-114 | each outcome with its condition; the first queued order with the id becomes current and BREWING, or is dropped by a failed check |
| Orders.CompleteOnFields | src/app/order/order_manager.cpp:116-126 | the current order enters the history COMPLETED, otherwise as it was |
| Orders.FailOnFields | src/app/order/order_manager.cpp:128-139 | the current order enters the history FAILED with the reason |
| Orders.StopOnFields | src/app/order/order_manager.cpp:142-151 | the current order is dropped and nothing else changes |
| Orders.RunKeepsInv | src/app/order/order_manager.cpp:24-151 | over every run the queue holds at most ten orders in arrival order, the current one is BREWING, and accepted tickets are queued, current, in the history or lost |
| Orders.OrdersAreConserved | src/app/order/order_manager.cpp:24-151 | from any shop within its bounds, as bags of tickets (id and details), opening stock and accepted orders are what is queued, current, in the history or lost |
| Orders.HistoryIsAppendOnly | src/app/order/order_manager.cpp:36-139 | the history only grows, by COMPLETED, CANCELLED and FAILED orders |
| Mqtt.EncodeLength | src/middleware/communication/mqtt_client.cpp:194 | the do-while loop prints base-128 digits, least significant first, with continuation bits |
| Mqtt.FieldLengthIsMinimal | src/middleware/communication/mqtt_client.cpp:194 | k bytes exactly when the value needs k base-128 digits |
| Mqtt.ReadLengthOfField | src/middleware/communication/mqtt_client.cpp:197 | the reader's shift loop inverts the field and leaves the rest of the stream |
| Mqtt.ReadStringOfEncodeString | src/middleware/communication/mqtt_client.cpp:195 | a string reads back whole exactly when its length fits 16 bits |
| Mqtt.ReadPacketOfFrame | src/middleware/communication/mqtt_client.cpp:197 | one framed packet reads back as its type and body |
| Mqtt.ConnectRoundTrip | src/middleware/communication/mqtt_client.cpp:231-238 | a CONNECT read by its flags gives client id, will, user name and password as intended iff every sent string fits its prefix and a will was meant for QoS 1 |
| Mqtt.ConnectPacketReads | src/middleware/communication/mqtt_client.cpp:231-238 | the framed CONNECT is a packet of type 1 with clear flags whose body reads as intended |
| Mqtt.PublishRoundTrip | src/middleware/communication/mqtt_client.cpp:245-252 | a published message reaches the callback unchanged iff its QoS is at least 1 and leaves the packet type alone, and its topic fits |
| Mqtt.PublishByTheStandard | src/middleware/communication/mqtt_client.cpp:252 | a reader that follows section 3.3 of MQTT 3.1.1 gets back QoS, packet id, topic and payload, DUP and RETAIN clear, iff the QoS is 0, 1 or 2 and the topic fits |
| Mqtt.QosZeroLosesTwoBytes | src/middleware/communication/mqtt_client.cpp:246-248 | at QoS 0 the payload "123" arrives as "3" |
| MqttLink.Link.ReadExact | src/middleware/communication/mqtt_client.cpp:196 | n bytes off the front of the stream however they are chunked, or failure |
| MqttLink.Link.ReadOne | src/middleware/communication/mqtt_client.cpp:197 | one packet off the front, failing only at the end or on a flaky link |
| MqttLink.Link.ReceiveLoop | src/middleware/communication/mqtt_client.cpp:243-248 | all packets of the stream, or a prefix of them on a flaky link |
| MqttLink.ReadAllOfWire | src/middleware/communication/mqtt_client.cpp:194-197 | reading the concatenation of frames gives the list of packets and leaves nothing over |
| MqttLink.DeliverFramed | src/middleware/communication/mqtt_client.cpp:194-197 | the receive loop over framed packets returns exactly them and consumes exactly their bytes |
| MqttLink.Publisher.Publish | src/middleware/communication/mqtt_client.cpp:252 | one frame with the next packet id for QoS above 0; the 16-bit counter, the header byte and the 32-bit length wrap |
| MqttLink.PublishAll | src/middleware/communication/mqtt_client.cpp:252 | the bytes of successive publish calls are the frames of those messages under successive packet ids |
| MqttLink.PacketIdsCount | src/middleware/communication/mqtt_client.cpp:252 | packet ids count the messages above QoS 0, modulo 2^16 |
| MqttLink.PublishedArriveIff | src/middleware/communication/mqtt_client.cpp:243-252 | what is published reaches the callback unchanged, in order and without anything else iff every message is deliverable |
| MqttLink.EndToEnd | src/middleware/communication/mqtt_client.cpp:243-252 | publish calls on one side, any chunking, the receive loop on the other: the callback gets exactly the published messages in order iff all are deliverable, and deliverable ones as a prefix on a flaky link |
| LogLines.LineReadsBack | src/middleware/storage/log_manager.cpp:148-162 | a JSON reader gets back time stamp, level, module, message and trace id exactly as logged |
| LogLines.EscapeRoundTrip | src/middleware/storage/log_manager.cpp:43-58 | an escaped text in quotes reads back as the text, whatever follows |
| LogFiles.FileNamesDiffer | src/middleware/storage/log_manager.cpp:201-206 | the base file and the numbered archives are different paths |
| LogFiles.LogStore.Rotate | src/middleware/storage/log_manager.cpp:194-225 | shifts .k to .(k+1), drops only the oldest, moves the base file to .0; a rename replaces a file iff no archives are kept and both base and .0 exist |
| LogRuns.LogManager.Write | src/middleware/storage/log_manager.cpp:142-192 | level filter, append, rotation at the byte limit, and the line once more in the new file; a setting below one archive acts as one |
| LogRuns.QuietWrite | src/middleware/storage/log_manager.cpp:142-178 | a line below the level does nothing, and below the byte limit a line is appended and nothing is rotated |
| LogRuns.DueWrite | src/middleware/storage/log_manager.cpp:178-190 | at the limit the whole file with the line becomes .0 and the line opens the new file |
| LogRuns.StepKeepsInv | src/middleware/storage/log_manager.cpp:142-225 | accepted lines are those rotated away and those readable, and a reopened file starts with its predecessor's last line |
| LogRuns.FilesHoldTheNewestLines | src/middleware/storage/log_manager.cpp:142-225 | after any run from any directory the files read oldest to newest hold a contiguous suffix of everything written |
| LogRuns.FilesStaySmall | src/middleware/storage/log_manager.cpp:169-191 | from a base file that is empty or small, whatever the archives hold, the current file stays under the limit or one line, and each archive the run rotated out is so without its last line |
| LogRuns.RotatedFilesAreFull | src/middleware/storage/log_manager.cpp:169-191 | over every run with one limit, every archive that was rotated out has reached it |
| Base64.Decode | src/main.cpp:1279-1282 | the loop with its 32-bit word computes the specified fold |
| Base64.DecodesTheBitString | src/main.cpp:1281-1282 | for every text without a NUL before the first '=' the output is exactly the whole bytes of the sextets' bit string, although the word wraps |
| Base64.SkippedIff | src/main.cpp:1282 | a character is skipped iff it is not in the alphabet, not '=' and not NUL |
| Base64.LettersAreTheAlphabet | src/main.cpp:1280 | the letters are those of section 4 of RFC 4648, in order |
| Base64.DecodeInvertsEncode | src/main.cpp:1281-1282 | the loop inverts the encoding of section 4 of RFC 4648 for every byte string |
| Base64.DecodeSkipsForeignCharacters | src/main.cpp:1282 | also with characters outside the alphabet scattered in |
| Ulid.EncodeTime | include/dev_sys/common/types.h:102-111 | the loop appends the ten time symbols |
| Ulid.EncodeRandom | include/dev_sys/common/types.h:113-122 | the loop appends the sixteen symbols cut from 16-bit windows |
| Ulid.TimeRoundTrip | include/dev_sys/common/types.h:98-111 | the time symbols read back as the low 48 bits of the clock |
| Ulid.RandomRoundTrip | include/dev_sys/common/types.h:113-122 | the random symbols read back as the ten bytes |
| Ulid.UlidsSortByTime | include/dev_sys/common/types.h:88-111 | an earlier millisecond sorts first whatever the random parts |
| Ulid.Generate | include/dev_sys/common/types.h:88-95 | 26 characters from which the low 48 bits of the clock and the ten random bytes read back |
| Ulid.SymbolsAreCrockfords | include/dev_sys/common/types.h:98-101 | the symbols are the 32 of Crockford's base32, in order |
| Topics.ParseTopic | include/dev_sys/common/types.h:331-362 | splitting as getline does, the optional broker prefix, and validity |
| Topics.DownlinkRoundTrip | include/dev_sys/common/types.h:331-375 | a downlink topic parses back to its parts iff device and type are given and no part has a slash |
| Topics.PlainTopic | include/dev_sys/common/types.h:331-362 | a topic without the broker prefix parses to its device, type and command, valid iff the version is v1 and both are given |
| Topics.SubscribedTopicsAreRouted | src/app/message_router.cpp:24-64 | whatever a subscription lets in is dispatched for the device named first, unless that name is empty |
| Topics.SubscribedIff | src/app/message_router.cpp:24-34 | the subscriptions let in exactly the seven device topics, for every device name without a slash |
| Topics.RoutedTypesAreSubscribed | src/app/message_router.cpp:24-64 | a message type is dispatched iff some subscription asks for it |

## Left out

- Sockets, threads, TLS, HTTP, JSON building, SQL text and row conversion: foreign calls and plumbing; only byte sequences and rows are modelled.
- The Paho branch of the MQTT client, subscribe, unsubscribe and the CONNACK check.
- Failing database writes: every write is taken to succeed.
- Restarts of the organization and account managers load what the database lists, in any order; devices, orders and firmwares are followed within one process lifetime.
- Mock data that an empty database is seeded with goes through create_org and create_account, so it is a run like any other.
- 32-bit overflow: organization and account ids are taken to stay below the 32-bit limit, and children counts are unbounded.
- Mqtt.ReadLengthOfField: states the inverse for lengths that fit 32 bits; on a malformed field of more than five bytes the source's shift is undefined and the model adds nothing.
- FirmwareSelection.SelectLatest: starts from the parsed version of each name; the regular expression that parses it is not modelled.
- LogRuns.LogManager.Write: the stream is taken to be open and renames to succeed; manual calls of rotate and export_recent are not modelled.
- The offline callback and the device table's database synchronization.
- A payment-before-brew rule: the service has none. The pre-brew check is a parameter; the service's always passes.
- OTA progress reports, rollout statistics, faults, recipes, device types, configuration, activation: only easy members.
- Password hashing and certificates.
