# A verified model of the homelab services

This project models the state machines and the small pure algorithms of the homelab
repository in Dafny and proves what they keep over whole runs.  It stands beside the code:
nothing here is generated from it.

Every concurrent component is a labelled transition system.  Its `Step` is a partial
function from a state and a label to the next state, and all outside choices (who moves,
what was drawn, what the clock read, which command failed) are in the label.  `Machine.Run`
folds `Step` over a list of labels, so a lemma about `Run` is a statement about every
interleaving.  Beside each transition system there is a class with the methods of the
source; their postconditions say which step, or run of steps, a call is.

| module | what it models |
|---|---|
| `Tuples`, `NanoId` | random ids, their exact chance of repeating, and the id size |
| `LinkProtocol`, `LinkStore` | the short-link store: interleaved Redis commands, and its calls |
| `TokenStore` | the in-memory refresh token store with its timers |
| `Jwt`, `TokenService` | claims, signing, checks; login, refresh and revoke |
| `InviteStore`, `Invitations` | the attempt budget of an invite; who may invite whom |
| `Decimal`, `Channels`, `Chat` | chat rooms over a message broker |
| `LoginManager` | the browser's refresh timer |
| `Membership`, `Provision`, `Provisioner` | database roles and grants, sent again after a crash |
| `Paths`, `Migrations`, `MigrateNew` | cleaned paths, sequence numbers of migration files, and the command that makes the next pair |
| `ImageRef` | parsing and printing image references |
| `Locales`, `GeoNames` | language preferences and localized place names |
| `Machine`, `Maps`, `Arithmetic`, `Wrappers` | runs, map sizes, products and quotients, options and results |

## What the proofs found

Some properties one would expect hold only under a condition.  The code is modelled as it
is; the condition is proved exact.

- **Id size.** (`risk` stands for -ln(1 - target) throughout.)  The product `n * (n - 1)` is a
  `usize`.  In a release build it wraps, and the chosen size has room for every target
  probability exactly up to n = 2^32 (`NanoId.RoomyExactlyUpToWrap`).  A debug build panics
  there instead.
- **Copied generators.** `Store` is cloned for every worker (services/lnsmol/src/main.rs:287),
  generator included.  As long as the counter asks for the same id size, a worker still at
  the copied position draws the ids another worker has used: it fails once for each, and
  after 34 of them its own create must fail (`LinkStore.CopiedGeneratorRepeats`).
- **Negative counter.** A delete whose counter goes below zero removes the link and then
  reports an error, because the answer does not read as a `usize` (`LinkStore.Store.Del`).
- **Stale timers.** The timer of an earlier `Set` removes a newer token.  A held token cannot
  be lost early exactly when nothing under way for its id can act before the token expires
  (`TokenStore.NeverLostExactlyWhenLate`); `TokenStore.StaleTimerLosesNewToken` gives a run
  after which it can be.  At the very instant of expiry the token may or may not be there.
- **Access token lifetime.** `Refresh` checks the old token and signs the new one at different
  times.  Because expiry times are cut to whole seconds, every access token still expires
  within both lifetimes of its refresh token's signing exactly as long as no `Refresh` takes
  more than a second in between (`TokenService.InTimeExactlyUpToASecond`); beyond that it can
  outlive them by whole seconds, and a run with a delay of a second and a nanosecond does.
- **Invite deadline.** `Get` reads the record and writes it back with KEEPTTL.  If it expires
  in between, the write makes a record without a deadline, which time never removes
  (`InviteStore.GetKeepsDeadlineExactlyInTime`).
- **Logout.** A refresh in flight at logout logs the page in again and schedules the next
  timer when it succeeds (`LoginManager.SilentExactlyWhenNothingInFlight`).
- **Migration versions.** At version 2^64 - 1 the counter wraps to 0, and above it the version
  does not parse (`Migrations.NextIsIdealExactlyBelowWrap`).
- **Migration names.** The name goes into the path before `filepath.Join` cleans it.  A directory
  goes on counting exactly when the first file lands in it with the next version
  (`MigrateNew.CountsOnExactly`), which every name without a slash does
  (`MigrateNew.PlainNameCounts`).  The name `x/../000009_y` skips to version 9 and reports
  success (`MigrateNew.SkippedVersions`); `x/../y` leaves files without a version, on which
  every later call fails (`MigrateNew.UnversionedFiles`).  If only the second file cannot be
  made, the command fails and the first file stays.  A next version that is taken already
  needs a last file with a short number (`MigrateNew.DuplicateNeedsShortNumber`).
- **Unquoted names.** `CREATE ROLE` quotes the user's name and `GRANT ... TO` does not.  A
  user's grants reach the role made for the user exactly when the name is a plain lower-case
  identifier and no word that must be quoted (`Provision.OwnGrantsExactly`,
  `Provision.OwnMembershipsExactly`).  The grants of "Bob" fail or go to "bob"
  (`Provision.BobIsNotGranted`, `Provision.BobsGrantGoesToBob`); those of "my-app" cannot be
  read at all (`Provision.HyphenIsNotGranted`).
- **Subdivisions.** A comment in services/geoip/src/geoip.rs:77 says that a subdivision
  without an acceptable name is skipped.  Collecting into an `Option` drops all of them
  instead; `GeoNames.NameAll` follows the code.

## Model

| member | source | states |
|---|---|---|
| NanoId.IdsCard | services/lnsmol/src/nanoid.rs:22-26 | there are exactly 64^size ids of a size: the alphabet has 64 different characters |
| NanoId.CharsetText | services/lnsmol/src/nanoid.rs:22-28 | the alphabet, in the order the draws index it |
| NanoId.GeneratedInIds | services/lnsmol/src/nanoid.rs:7-12 | whatever the generator draws, the result has the asked size and only characters of the alphabet |
| NanoId.SameIdExactly | services/lnsmol/src/nanoid.rs:7-12 | two generators at any two positions give the same id exactly when all the draws behind it are the same |
| NanoId.SameRowExactly | services/lnsmol/src/nanoid.rs:7-12 | likewise n ids drawn one after the other: n * size draws, none used twice |
| NanoId.EveryRowDrawn | services/lnsmol/src/nanoid.rs:7-12 | every row of ids is what some generator gives, at every position; so rows of ids and rows of draws correspond one to one, and uniform draws give uniform ids |
| NanoId.RepeatChanceIsProduct | services/lnsmol/src/nanoid.rs:41-48 | the exact chance that n uniform draws are not all different, as a ratio of counted tuple sets, is one minus the product of (1 - i/d) |
| NanoId.NoRepeatBounds | services/lnsmol/src/nanoid.rs:30-37 | that product lies between 1 - x and 1 / (1 + x) for the birthday exponent x, on both sides of the formula's e^-x |
| NanoId.BirthdayClosed | services/lnsmol/src/nanoid.rs:47-51 | the exponent, a sum over the draws, is n(n-1) / 2d |
| NanoId.CalcIdSizeLeast | services/lnsmol/src/nanoid.rs:51-58 | the size is the least one of at least 3 whose id space has room for the product as the machine computes it |
| NanoId.WrapsAbove | services/lnsmol/src/nanoid.rs:51 | n(n-1) is computed exactly up to n = 2^32 and is too small above |
| NanoId.RoomyExactlyUpToWrap | services/lnsmol/src/nanoid.rs:40-59 | the size has room for n(n-1) for every target exactly when n is at most 2^32 |
| NanoId.RoomDecidesChance | services/lnsmol/src/nanoid.rs:47-51 | room for n(n-1) keeps the exact chance at most risk, and without room it is above risk / (1 + risk) |
| NanoId.ChosenSizeIsSafeAndShortest | services/lnsmol/src/nanoid.rs:40-59 | n ids of the chosen size repeat with an exact chance of at most risk; any shorter admissible size exceeds risk / (1 + risk) |
| NanoId.CalcIdSizeMonotone | services/lnsmol/src/nanoid.rs:40-59 | more links never get shorter ids, up to 2^32 |
| LinkProtocol.LinkKeysSeparate | services/lnsmol/src/link.rs:49-54 | different ids have different keys and none is the counter's key |
| LinkProtocol.StepSlack | services/lnsmol/src/link.rs:82-165 | only an expiry and a lost create widen the gap between the counter and what is live or in progress, each by one |
| LinkProtocol.Conservation | services/lnsmol/src/link.rs:203-223 | in every interleaving the counter is live links + creates in flight + deletes owing a DECR + expired links + lost creates |
| LinkProtocol.CounterBoundsLinks | services/lnsmol/src/link.rs:89-91 | so the counter is at least the number of live links, and a create reads at least one more than there are |
| LinkProtocol.ReadsAtLeastOne | services/lnsmol/src/link.rs:90-91 | no create ever works with a count below 1 |
| LinkProtocol.CountIsIncrs | services/lnsmol/src/link.rs:203-223 | in every interleaving the counter is the number of INCRs less that of DECRs |
| LinkProtocol.CreatingOrigin | services/lnsmol/src/link.rs:89-103 | a create in flight works for the link it began with and with the count right after its own INCR |
| LinkProtocol.LinkStable | services/lnsmol/src/link.rs:104-113 | a live id keeps its link in every interleaving until it is deleted or expires |
| LinkProtocol.LinkOrigin | services/lnsmol/src/link.rs:102-117 | in every interleaving a live id holds the link of the very create that stored it, and nothing has removed it since |
| LinkProtocol.OneHolder | services/lnsmol/src/link.rs:102-117 | an id is never handed out twice without being freed in between |
| LinkProtocol.OnlyLinkKeys | services/lnsmol/src/link.rs:104-109 | no reachable link table holds anything under the counter's key |
| LinkProtocol.AttemptsAreMisses | services/lnsmol/src/link.rs:101-128 | a create in flight has sent one SET for each miss, whatever the others do, and keeps the count it read |
| LinkProtocol.CreateTriesAtMost34 | services/lnsmol/src/link.rs:118-126 | a create sends at most 34 SET commands in any interleaving |
| LinkProtocol.GivesUpAfter34 | services/lnsmol/src/link.rs:118-126 | a create that gives up has sent exactly 34 and has stored nothing, in any interleaving |
| LinkProtocol.LiveDuringCreate | services/lnsmol/src/link.rs:90-103 | a create that read n faces at most n - 1 live links plus those other creates stored since |
| LinkProtocol.AloneStoresNothing | services/lnsmol/src/link.rs:102-128 | while no create but one takes a step, nobody stores a link as long as that one goes on |
| LinkProtocol.HitChanceBound | services/lnsmol/src/nanoid.rs:51-58 | with at most n - 1 live links, a fresh id of the size for n hits one with a chance h such that n * h is at most 2 * risk |
| LinkProtocol.LoneCreateRarelyCollides | services/lnsmol/src/link.rs:90-104 | both together, at every attempt of every create during which no other create takes a step, whatever crashed before |
| LinkStore.Store.Create | services/lnsmol/src/link.rs:82-129 | one undisturbed create: a malformed URL is a bad request and the service's own host a conflict, both uncounted; else the counter rises and the link is stored with the requested expiry, or a week |
| LinkStore.Store.FindId | services/lnsmol/src/link.rs:100-128 | the retry loop: link and expiry under the first free id; an expiry that Redis does not accept fails at the first SET |
| LinkStore.TriesFindFirstFree | services/lnsmol/src/link.rs:102-128 | the loop stores under the first free id among 34 draws, or fails after 34 and stores nothing |
| LinkStore.CreateFailsExactly | services/lnsmol/src/link.rs:102-128 | a counted create with an acceptable expiry fails exactly when the next 34 ids drawn are all taken, and otherwise uses the first of them that is free |
| LinkStore.Store.Get | services/lnsmol/src/link.rs:131-145 | the stored link, or not found |
| LinkStore.Store.Del | services/lnsmol/src/link.rs:147-165 | removes the link and its expiry and lowers the counter only if there was a link; the link is gone even when the counter's answer is an error |
| LinkStore.Store.Clone | services/lnsmol/src/link.rs:56-61 | a clone shares Redis and copies the generator with its position |
| LinkStore.CreateIsRun | services/lnsmol/src/link.rs:82-129 | an undisturbed create, also one with a refused expiry, is a run of the interleaved protocol |
| LinkStore.DelIsRun | services/lnsmol/src/link.rs:147-165 | so is an undisturbed delete |
| LinkStore.DrawnIdsAreTaken | services/lnsmol/src/link.rs:100-117 | after k creates with ids of one size at least k drawn ids are taken, and they are the first ones from the starting position |
| LinkStore.CopiedGeneratorRepeats | services/lnsmol/src/link.rs:56-61 | while the id size stays the same, a worker with a copied generator fails once for each create of the other, and stores nothing after 34 of them |
| TokenStore.LiveIsLatestSet | pkg/auth/token_store.go:76-82 | the plain expiring map holds exactly what the latest Set stored with no Del after it |
| TokenStore.StoreWithinMap | pkg/auth/token_store.go:76-128 | in every interleaving with timers, tidy and slow Gets, the store holds nothing the plain map does not |
| TokenStore.GetReturnsCurrentToken | pkg/auth/token_store.go:92-105 | a returned token was the latest Set with no Del since when the map was read, and its expiry had not passed when the clock was read |
| TokenStore.ProtectedRun | pkg/auth/token_store.go:76-128 | a token that nothing under way threatens is held until it expires |
| TokenStore.NeverLostExactlyWhenLate | pkg/auth/token_store.go:83-88 | a held token survives every continuation without Set or Del exactly when no goroutine for its id can remove it before its expiry |
| TokenStore.CalmRunsRefineBothWays | pkg/auth/token_store.go:76-128 | if each Set comes when nothing under way threatens its token, store and plain map agree on every unexpired token |
| TokenStore.StaleTimerLosesNewToken | pkg/auth/token_store.go:83-88 | a concrete run after which the timer of an old Set can remove a fresh token |
| TokenStore.MemoryTokenStore.Set | pkg/auth/token_store.go:76-90 | Set is a run of the protocol and leaves one more armed timer |
| TokenStore.MemoryTokenStore.Get | pkg/auth/token_store.go:92-105 | Get is a run of the protocol: the token while the later clock read is within its expiry, else nothing and the entry deleted |
| TokenStore.MemoryTokenStore.Del | pkg/auth/token_store.go:107-112 | removes the id, whoever set it |
| TokenStore.MemoryTokenStore.Tidy | pkg/auth/token_store.go:114-128 | the timer's id is removed without looking at what is stored now |
| Jwt.NeverBoth | pkg/auth/jwt.go:158-190 | no token at all is accepted both by the guard and as a refresh token, at whatever times |
| Jwt.GuardAcceptsExactly | pkg/auth/jwt.go:158-190 | the guard accepts exactly signed tokens of this issuer whose first audience is "user" and whose times hold, and hands out their claims |
| Jwt.RefreshAcceptsExactly | pkg/auth/jwt.go:158-190 | a refresh token is accepted exactly when its first audience is "refresh" and it would be an access token but for that |
| Jwt.TokenResponse.InitRefreshToken | pkg/auth/jwt.go:246-256 | signs a copy for the refresh audience that expires five days later, and sets the response's refresh token |
| Jwt.NewAccessToken | pkg/auth/jwt.go:230-244 | writes the issue time and an expiry two hours later, in whole seconds, into the caller's claims and signs those |
| Jwt.NewTokenResponse | pkg/auth/jwt.go:205-219 | the caller keeps the access token's claims: signing the refresh token changes neither audience nor expiry |
| TokenService.LogWellIssued | pkg/app/auth.go:126-134 | over every run each issued token has the issuer, one audience, the expiry of its kind and the identity of its user |
| TokenService.IssuedForOneUse | pkg/auth/jwt.go:158-190 | an issued access token passes the guard while its times hold and never refreshes, an issued refresh token the other way round |
| TokenService.IssuedAcceptedExactly | pkg/auth/jwt.go:192-256 | over every run each issued access token passes the guard exactly from the second of its signing until two hours later, and each refresh token is accepted exactly from the second of the login until five days after its signing |
| TokenService.IssuedDuringStep | pkg/app/auth.go:332-344 | a token is signed between the start and the end of the request that issues it, and nothing issued is taken back |
| TokenService.IdentityFromRoot | pkg/app/auth.go:287-297 | along any chain of refreshes and implicit logins id, uuid and roles are those of the password login at its root |
| TokenService.RootIsPasswordLogin | pkg/app/auth.go:126-134 | and that root is a password login of the run by that user |
| TokenService.AccessLifetime | pkg/app/auth.go:256-311 | an access token expires within both lifetimes of the signing of the refresh token it descends from, plus the whole seconds by which the delay of a Refresh exceeds the first |
| TokenService.AcceptedWithinLifetime | pkg/auth/jwt.go:192-194 | so, while no Refresh takes longer than a second, the guard accepts it only before both lifetimes are over |
| TokenService.InTimeExactlyUpToASecond | pkg/app/auth.go:273-299 | over all runs every access token expires within both lifetimes of its refresh token's signing exactly when no Refresh takes longer than a second |
| TokenService.LastMomentRefresh | pkg/app/auth.go:273-299 | a concrete run with a delay of a second and a nanosecond whose access token expires later |
| TokenService.StoreKeepsLatestLogin | pkg/app/auth.go:332-344 | the token stored for an id is that of the latest login for it, with no Revoke since |
| TokenService.RefreshNeedsLatestLogin | pkg/app/auth.go:273-285 | a Refresh succeeds only with the refresh token of the latest login for its id |
| TokenService.RefreshSucceedsExactly | pkg/app/auth.go:256-311 | over every run a Refresh succeeds exactly with a refresh token for the id, within five days of its signing, that belongs to the latest login with no removal since |
| TokenService.ImplicitLoginSucceedsExactly | pkg/app/auth.go:62-138 | a login without a password succeeds exactly with an access token for the id within two hours of its signing |
| TokenService.RevokeSucceedsExactly | pkg/app/auth.go:375-403 | a Revoke succeeds exactly with such an access token and the latest login's refresh token |
| TokenService.SupersededStaysDead | pkg/app/auth.go:278-285 | a token that is no longer stored never comes back unless the very same token is issued again |
| TokenService.RevokedUntilLogin | pkg/app/auth.go:375-403 | after a Revoke no Refresh succeeds for that id until its next login |
| TokenService.Service.ResponseToken | pkg/app/auth.go:332-344 | signs both tokens and stores the refresh token under the claims' id |
| TokenService.Service.Token | pkg/app/auth.go:207-250 | a password login is one step of the life cycle; a bad request, an unknown user or a refused challenge changes nothing |
| TokenService.Service.Login | pkg/app/auth.go:62-138 | with an accepted access token the claims are signed again, otherwise the password decides; a bad body or a refused challenge issues nothing |
| TokenService.Service.ReadStore | pkg/auth/token_store.go:50-57 | the stored token, or an empty one when Redis fails |
| TokenService.Service.Refresh | pkg/app/auth.go:256-311 | succeeds exactly when the body binds, the store answers and the step exists, with the new access token and the same refresh token |
| TokenService.Service.Revoke | pkg/app/auth.go:375-403 | succeeds exactly with an accepted access token and the stored refresh token of its id; while Redis fails, exactly with an empty one |
| InviteStore.FillRoles | pkg/invite/invite.go:247-253 | one role for each name, in order |
| InviteStore.ReadsAsNamed | pkg/auth/role.go:36-48 | each role name reads as its own role and every other text as the invalid one |
| InviteStore.Budget | pkg/invite/invite.go:146-174 | over every run, stored attempts plus successful Gets is the starting budget; a negative budget is never used up |
| InviteStore.SpentIsRefused | pkg/invite/invite.go:161-174 | once the budget is used up, Get and View refuse the invite at every time |
| InviteStore.CreateStartsBudget | pkg/invite/invite.go:99-134 | a new record has the requested creator, e-mail and roles, the requested budget or 5, and a deadline after the requested timeout or ten minutes; the time it shows is that deadline in whole milliseconds, less the delay of the write |
| InviteStore.GetKeepsDeadlineExactlyInTime | pkg/invite/invite.go:176-182 | a Get keeps the deadline exactly when its write comes before it; otherwise the record never expires |
| InviteStore.DeadlineFixed | pkg/invite/invite.go:176-182 | in runs whose writes come in time the deadline is the one fixed at creation |
| InviteStore.GoneStaysGone | pkg/invite/invite.go:184-204 | a removed record stays removed until it is created again |
| InviteStore.OnlyCreatorDeletes | pkg/invite/invite.go:184-200 | whatever happened since, OwnerDel removes a live record exactly when the uuid is that of its creator |
| InviteStore.SessionStore.Create | pkg/invite/invite.go:99-134 | stores the session it returns, with the defaults for a zero timeout or budget |
| InviteStore.SessionStore.View | pkg/invite/invite.go:161-174 | answers exactly for a live record with attempts left; a spent one is deleted |
| InviteStore.SessionStore.Get | pkg/invite/invite.go:146-159 | the session with a positive budget lowered by one, which is then the stored one; else as View |
| InviteStore.SessionStore.OwnerDel | pkg/invite/invite.go:184-200 | not found, forbidden for all but the creator, else the record is gone |
| InviteStore.SessionStore.Del | pkg/invite/invite.go:202-204 | the record is gone afterwards |
| Invitations.IsAdmin | pkg/auth/role.go:72-79 | true exactly when the admin role is among the roles |
| Invitations.AlwaysSound | pkg/app/invite.go:80-95 | over every run each invite names the account that made it, and only admins' invites carry roles |
| Invitations.AccountIsAsAsked | pkg/app/invite.go:180-230 | over every run an account made from an invite has an e-mail, the one the Create of that invite named if any, and exactly the roles it named or else the default role |
| Invitations.CreateMakes | pkg/app/invite.go:80-134 | which requests make an invite for an admin and for everybody else, and with what budget and deadline |
| Invitations.OnlyMakerDeletes | pkg/app/invite.go:280-293 | over every run a delete changes something exactly when the account is the one whose Create made the invite |
| Invitations.NonAdminInvitesDefault | pkg/app/user.go:180-182 | an account from a non-admin's invite has the default role and no other |
| Invitations.AdminsComeFromAdmins | pkg/app/invite.go:80-95 | every admin account goes back, through admins only, to an initial admin |
| Invitations.OneAccountPerInvite | pkg/app/invite.go:209-228 | while clean-up deletes succeed, an invite makes at most one account and is then gone |
| Invitations.AccountsWithinBudget | pkg/app/invite.go:188-215 | even if every clean-up fails, accounts made plus attempts left never grow |
| Invitations.InviteMakesAtMostBudget | pkg/app/invite.go:188-224 | so over its whole life an invite makes at most as many accounts as its budget |
| Invitations.Handlers.Create | pkg/app/invite.go:57-134 | each refusal by its condition on roles and request; otherwise the stored session, or a mail error with the invite made |
| Invitations.Handlers.SignUp | pkg/app/invite.go:180-230 | each error by its condition on the stored session and the login, and otherwise the new account with its e-mail, roles and inviter; the attempt is spent either way |
| Invitations.Handlers.Delete | pkg/app/invite.go:280-293 | not found, forbidden for every account but the maker's, else deleted |
| Channels.PatternHearsOnlyItsRoom | pkg/app/chat/comms.go:39-52 | the subscription pattern of a room matches a channel exactly when it is of that room |
| Chat.AlwaysSound | pkg/app/chat/chat.go:257-295 | in every interleaving each published message was saved under its id and carries its connection's room and user |
| Chat.DeliveryIsExact | pkg/app/chat/comms.go:50-81 | what a connection took, holds and has buffered is exactly what other users published in its room since it subscribed, in order |
| Chat.ReceivedWasSavedThenPublished | pkg/app/chat/chat.go:264-273 | a received message was saved with its id and body, then published in that room by a different user |
| Chat.PublishedIdsIncrease | pkg/app/chat/chat.go:257-275 | the ids each connection publishes increase |
| Chat.Hub.SaveMessage | pkg/app/chat/chat.go:121-132 | stores the message as it came and fills in the new id |
| Chat.Hub.Pub | pkg/app/chat/comms.go:38-47 | overwrites room and user, then publishes to every matching subscription |
| Chat.Hub.ReadTurn | pkg/app/chat/chat.go:257-275 | one turn of the read loop: nothing is published that was not saved first |
| Chat.Hub.NextMessage | pkg/app/chat/comms.go:61-75 | the filter goroutine skips its own user's messages until it holds another's |
| LoginManager.AtMostOneTimer | frontend/legacy/util/LoginManager.ts:75-94 | in every run at most one refresh timer is pending, and it is the one the manager holds |
| LoginManager.LoggedInExactly | frontend/legacy/util/LoginManager.ts:141-155 | over every run the page is logged in exactly when a login with an unexpired token or a good refresh came after the latest logout or failed refresh |
| LoginManager.TimerForToken | frontend/legacy/util/LoginManager.ts:75-94 | over every run a token with at least a second left leaves exactly one timer, a new one, held and due a second before the token expires; any other token changes no timer |
| LoginManager.SilentExactlyWhenNothingInFlight | frontend/legacy/util/LoginManager.ts:141-160 | after logout or stop no timer goes off until the next login exactly when no timer's refresh was in flight |
| LoginManager.LogoutHoldsExactlyWhenNothingInFlight | frontend/legacy/util/LoginManager.ts:58-72 | a logout holds until a login exactly when no refresh at all was in flight |
| LoginManager.Manager.ClearTimeoutHeld | frontend/legacy/util/LoginManager.ts:40-45 | clears the held timer, if any |
| LoginManager.Manager.ScheduleRefresh | frontend/legacy/util/LoginManager.ts:75-94 | with at least a second left a new timer one second before the token expires replaces the old one; else nothing changes |
| LoginManager.Manager.LogIn | frontend/legacy/util/LoginManager.ts:148-155 | refuses a token exactly when it is expired, otherwise logs in and schedules |
| LoginManager.Manager.LogOut | frontend/legacy/util/LoginManager.ts:141-146 | logged out and no timer held |
| LoginManager.Manager.StopTimers | frontend/legacy/util/LoginManager.ts:157-160 | drops the timer and leaves the login as it is |
| LoginManager.Manager.SendRefresh | frontend/legacy/util/LoginManager.ts:47-58 | sends a request exactly when a non-empty refresh token is stored |
| LoginManager.Manager.OnTimer | frontend/legacy/util/LoginManager.ts:83-93 | the callback leaves the held timer id as it is, although that timer is spent |
| LoginManager.Manager.OnAnswer | frontend/legacy/util/LoginManager.ts:58-72 | a good answer logs in, a bad one logs out |
| LoginManager.Manager.OnToken | frontend/legacy/util/LoginManager.ts:84-89 | the continuation schedules the next timer for the token it looks at |
| LoginManager.Manager.Startup | frontend/legacy/util/LoginManager.ts:96-118 | an unexpired stored token logs in; an expired one is refreshed if the refresh token is neither missing nor expired; else nothing happens |
| Provision.RunCatchesUp | pkg/provision/postgres.go:95-195 | statements that go through on s go through on every server between s and their result, and end between the two |
| Provision.RunMakes | pkg/provision/postgres.go:108-156 | after a successful run there are the roles and databases of before, unchanged, and one for each user and database of the configuration, with the password, attributes and owner that the first of its name gives |
| Provision.RerunAfterCrashes | pkg/provision/postgres.go:95-195 | however often provisioning is cut off and in whatever map order, one complete run ends where an uninterrupted one does, and one more changes nothing |
| Provision.GrantsSucceedExactly | pkg/provision/postgres.go:158-193 | a list of grants goes through exactly when every name in it reads as one identifier and exists and its memberships close no cycle, and then it adds exactly these |
| Provision.MapOrderIrrelevant | pkg/provision/postgres.go:158-186 | success and the final server do not depend on the iteration order of the grant maps |
| Provision.RunGrants | pkg/provision/postgres.go:95-195 | a successful run adds exactly the grants and memberships its statements name |
| Provision.RunGrantsListed | pkg/provision/postgres.go:158-186 | after a successful run the grants are those of before and exactly the privileges the configuration lists, for the folded user name |
| Provision.RunMembersListed | pkg/provision/postgres.go:187-192 | likewise the memberships, with both names folded |
| Provision.OwnGrantsExactly | pkg/provision/postgres.go:109-186 | a listed privilege ends up with the role made for its user exactly when the user's name is a plain lower-case identifier that needs no quotes |
| Provision.OwnMembershipsExactly | pkg/provision/postgres.go:187-192 | the same for the roles a user is put into |
| Provision.CaseOnly | pkg/provision/postgres.go:231-257 | folding and upper-casing change nothing but case, and leave exactly their own case alone |
| Provision.BobIsNotGranted | pkg/provision/postgres.go:160-167 | the user Bob is created, but a grant to Bob fails without a role bob |
| Provision.BobsGrantGoesToBob | pkg/provision/postgres.go:160-167 | with a role bob, that one gets the grant |
| Provision.HyphenIsNotGranted | pkg/provision/postgres.go:160-167 | the user my-app is created, but no grant to my-app can be read |
| Provisioner.ValidateEntries | pkg/provision/postgres.go:231-257 | accepts exactly non-empty names with known privileges, in any case |
| Provisioner.ValidUserExactly | pkg/provision/postgres.go:197-257 | a user is valid exactly when every grant names something and every privilege is, in any case, one of the five of databases or the eight of tables |
| Provisioner.Validate | pkg/provision/postgres.go:217-229 | accepts exactly when every user is valid |
| Provisioner.Connection.CreateRole | pkg/provision/postgres.go:122-133 | an existing role counts as created, any other error stops |
| Provisioner.Connection.CreateDatabase | pkg/provision/postgres.go:136-155 | an owner is required; an existing database counts as created |
| Provisioner.Connection.GrantUser | pkg/provision/postgres.go:158-193 | sends the user's database, table and role grants in that order, up to the first failure |
| Provisioner.Connection.Provision | pkg/provision/postgres.go:95-195 | sends nothing for an invalid configuration, otherwise all its statements in order up to the first failure |
| Migrations.LexIsNumeric | cmd/provision/migrate.go:217-232 | among numbers of equally many digits, byte order is numeric order |
| Migrations.LastIsHighest | cmd/provision/migrate.go:217-219 | the last file of a listing has the highest version |
| Migrations.NextIsIdealExactlyBelowWrap | cmd/provision/migrate.go:211-239 | the next version is the highest plus one in d digits, or an error if that needs more, exactly when the highest is below 2^64 - 1 |
| Migrations.NextVersion | cmd/provision/migrate.go:211-239 | for up to 19 digits it is the highest plus one, of d digits and unused, and fails exactly when that does not fit |
| Migrations.NextAfterLast | cmd/provision/migrate.go:211-239 | for any listing at all, each error by its condition on what stands before the first underscore of the last name, and otherwise the 64-bit successor in d digits |
| MigrateNew.Disk.New | cmd/provision/migrate.go:112-155 | the answer and the files after it for any directory, name and outcome of the file system |
| MigrateNew.Disk.Create | cmd/provision/migrate.go:241-250 | exclusive creation: fails if the file is there or the system refuses; a file that does not close is an error and stays |
| MigrateNew.TargetName | cmd/provision/migrate.go:147-149 | where the cleaned path of each file leads, and its name there, for every name |
| MigrateNew.CountedNext | cmd/provision/migrate.go:127-142 | in a directory with versions 1 to k the command chooses k + 1, unused, or fails because that has a seventh digit |
| MigrateNew.CountsOnExactly | cmd/provision/migrate.go:147-153 | the count goes on exactly when the first file is made, lands in the directory and bears k + 1 there; the directory counts at all exactly when nothing lands there or it bears a version up to k + 1 |
| MigrateNew.PlainNameCounts | cmd/provision/migrate.go:120-154 | for a name without a slash the count goes on exactly when the first file is made, and the command succeeds exactly when both work |
| MigrateNew.PlainNamesMade | cmd/provision/migrate.go:147-153 | when all goes well the directory gains exactly the files version_name.up.sql and version_name.down.sql |
| MigrateNew.RepeatedNewCounts | cmd/provision/migrate.go:112-155 | from a directory without files, repeated calls with such names count 1, 2, 3 and so on without gap or repeat, whatever fails on the way |
| MigrateNew.DuplicateExactly | cmd/provision/migrate.go:127-142 | in any directory the version is found taken exactly when the last file's number can be read and some file bears the next one in six digits |
| MigrateNew.DuplicateNeedsShortNumber | cmd/provision/migrate.go:134-142 | that takes a last file whose number has fewer than six digits or is 2^64 - 1 |
| MigrateNew.TakenBehindNine | cmd/provision/migrate.go:134-142 | a concrete directory, 000010_a.sql and 9_b.sql, in which it happens |
| MigrateNew.SkippedVersions | cmd/provision/migrate.go:148-149 | the name x/../000009_y makes version 9 behind a lower one and reports success |
| MigrateNew.UnversionedFiles | cmd/provision/migrate.go:148-149 | the name x/../y leaves files on which the next call fails |
| ImageRef.ImageObject.Parse | cmd/tools/lab/config.go:165-181 | refuses the empty text, otherwise overwrites exactly the parts that are found |
| ImageRef.ParsedExactly | cmd/tools/lab/config.go:165-181 | exactly what any text makes of any image: where registry, name and tag are cut, and that a part the text does not have stays as it was |
| ImageRef.PrintThenParse | cmd/tools/lab/config.go:125-130 | printing and parsing gives an image back exactly when its name is not empty, its tag has no colon, its registry no slash, and the slashes elsewhere tell the registry apart |
| ImageRef.ParseThenPrint | cmd/tools/lab/config.go:165-181 | parsing into an empty image and printing gives a text back exactly when a tag is found and a registry part is not empty |
| Locales.Parse | services/geoip/src/locale.rs:44-72 | name, region and quality of one entry; a missing or unreadable quality is 1 |
| Locales.EntryParsed | services/geoip/src/locale.rs:44-72 | an entry "tag ; q=weight" with white space anywhere around both has the language and region of the tag, and the weight if it can be read, else 1 |
| Locales.PlainEntryParsed | services/geoip/src/locale.rs:44-72 | an entry without a semicolon is a tag of quality 1 |
| Locales.FullNameOfParsed | services/geoip/src/locale.rs:179-187 | a plain tag is its own full name unless its first hyphen is its last character |
| Locales.Sort | services/geoip/src/locale.rs:134-139 | sorts the vector in place, better quality first, equal quality in the old order |
| Locales.Collect | services/geoip/src/locale.rs:142-151 | parses every entry, then sorts |
| Locales.FromIterSorts | services/geoip/src/locale.rs:134-151 | the result is by descending quality and keeps the order of equal quality |
| Locales.StableSortUnique | services/geoip/src/locale.rs:137 | there is only one such order, so any stable sort gives it |
| Locales.FromIterPermutes | services/geoip/src/locale.rs:134-151 | nothing is lost or invented |
| GeoNames.BestMatchSpec | services/geoip/src/geoip.rs:125-135 | the preferred locale: the leftmost of highest quality among those with a name |
| GeoNames.FirstOfSortedIsBest | services/geoip/src/locale.rs:240-251 | sorting and taking the first match gives the preferred locale of the unsorted header |
| GeoNames.FoundIsPreferred | services/geoip/src/geoip.rs:125-135 | the locale the search stops at is the preferred one |
| GeoNames.GetI18nName | services/geoip/src/geoip.rs:108-142 | a name and its language: the remembered language's, else the first match's by full name before bare name; BadLang and the internal error exactly by their conditions |
| GeoNames.NameAll | services/geoip/src/geoip.rs:73-86 | every subdivision has the name that the chosen language and the locales determine, exactly when each can be named; otherwise none is |
| GeoNames.Lookup | services/geoip/src/geoip.rs:38-88 | succeeds exactly when country and city can be named one after the other, with that error otherwise; country, city and subdivision names and the language are the ones `Answers` describes |
| GeoNames.AnswerUnique | services/geoip/src/geoip.rs:38-88 | that description leaves no choice: any two answers to a lookup are equal |

## Left out

- LinkStore.Store.Create: the greatest expiry that Redis accepts is a parameter; a command that fails halfway is modelled by the Abandon step of `LinkProtocol` only.
- LinkProtocol.Conservation: a call that crashes simply takes no further step, so a crashed create stays in flight for good and a crashed delete keeps owing its DECR.
- NanoId.CalcIdSizeLeast: floating-point rounding of the logarithm is left out; the exponent is the exact least one over the reals, and `risk` is any positive real in place of -ln(1 - target).
- NanoId.RepeatChanceIsProduct: the generator's draws are taken to be uniform and independent.
- TokenStore.MemoryTokenStore.Set: time is a counter; the monotonic clock and the channel's blocking are not modelled beyond the order of steps.
- TokenService.Service.Login: cookies and the redirect in the answer are left out; signing and storing the tokens are taken to succeed.
- TokenService.Service.ReadStore: the store is a map whose entries may vanish at any step.
- InviteStore.Budget: store calls do not overlap each other; two overlapping Gets can spend one attempt together, because reading and writing back are separate commands.
- Invitations.AdminsComeFromAdmins: roles changed directly in the database are not modelled, and requests do not overlap.
- Invitations.Handlers.Create: random invite ids are taken not to repeat, and the roles in the claims to be those of the account; the lists of invites are left out.
- Chat.DeliveryIsExact: the broker is assumed to deliver in order and lose nothing and the database to hand out increasing ids; closing a connection and the stop channel are left out.
- Chat.Hub.ReadTurn: a publish that reports an error is taken not to have been published.
- Channels.PatternHearsOnlyItsRoom: character classes and escapes of Redis patterns do not occur in these patterns and are left out.
- LoginManager.TimerForToken: a timer may fire at any moment, also early or late, and delays beyond what a browser's timer can hold (2^31 - 1 ms) are taken as they are.
- LoginManager.AtMostOneTimer: event listeners and what is kept in the browser's storage are left out, except whether a refresh token is stored.
- Provision.RerunAfterCrashes: the server is roles, databases, tables, grants and memberships; existing tables are fixed, privileges are kept as upper-cased names, and nobody else changes the server meanwhile.
- Provision.OwnGrantsExactly: the server's keyword tables are parameters; text that reads as more than one identifier (a list, a clause), and text with quotes of its own, is taken as refused; names are not cut at 63 bytes.
- Provisioner.ValidateEntries: only ASCII letters have an upper case.
- MigrateNew.Disk.New: whether a directory exists above a file is part of what the system allows; links in the file system and special characters in the directory's own name are left out, and nothing else writes to it meanwhile.
- ImageRef.ImageObject.Parse: the YAML mapping form is left out.
- Locales.EntryParsed: splitting the header at its commas is left out; white space is that of ASCII.
- Locales.Collect: qualities are reals, so NaN, which compares as equal to everything, does not occur; reading a decimal number is a parameter.
- GeoNames.Lookup: the database is a record of names; address lookups and the other fields of the answer are left out.
- Real cryptography and the encodings of tokens, claims, links and invites: signatures are ideal, a signed token is its claims.
- `Store::list` and the access limit of links: the first depends on Redis scanning, the second is stored and never used.
- Overlapping invite handlers, role checks of other routes, the consent handler, HTTP routing, templates, metrics, S3, Kubernetes, the session stores and the hits cache.
