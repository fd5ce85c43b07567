# Verified model of the railyard control plane

Railyard deploys projects described by a manifest to a server. This project models the four parts of it
where correctness depends on more than one function, and proves what they promise.

- **Manifests** (`Reference`, `EnvCycle`, `ServiceFields`, `FieldRules`, `Manifest`, `CycleExample`). The scanner for
  `${{ ... }}` tokens is proved against a grammar and against a printer, errors included; every field check is proved
  to enforce exactly a rule stated apart from it; the depth-first search for reference cycles is proved exact for any
  order of roots and edges; validation is proved to report exactly the things that are wrong, and an accepted manifest
  to have only short chains of references.
- **Identity** (`Identity`, `IdentityRuns`). Users and invites are two tables; minting an invite, redeeming it and
  removing a user are programs of several SQL statements with no transaction around them. A run is any
  interleaving of any number of these programs, each of which may also stop for good after any statement. The
  `Db` class is the same statements as methods, each tied to its program run alone.
- **Signed requests** (`RequestSigning`, `NonceCache`, `RequestAuth`, `RequestRace`). The signed text determines the
  request, and the pruned nonce map is compared with the unbounded log of verified requests, for any clock readings
  in any order. `RequestRace` splits a request into its clock reading and its turn at the lock, and runs any number
  of requests interleaved on a clock that never runs backwards.
- **Handlers and uploads** (`Archive`, `Routes`, `Handlers`, `Scoping`, `Uploads`, `Projects`). All handlers,
  redemptions among them, run statement by statement and frame by frame, interleaved; the results are a two-run
  noninterference theorem for project-scoped callers, what each handler answers and changes on its own, what a release
  row says about its archive, and what racing creations cannot break.
- **The CLI's own state** (`ClientStore`, `ProjectName`). Server entries and project bindings, write by write, and
  the derivation of project names.

`Prelude` holds options, results, substring search, trimming and the words of a text.

## What the models take as given

Clock readings, random draws, prompts, and the answers of other machines are arbitrary inputs. Random user ids,
invite tokens and release ids never repeat; the hash of a token stands for the token. Ed25519, base64, SHA-256 and
the Unicode lowercasing are arbitrary functions passed in; of the lowercasing it is used that it leaves a-z, 0-9 and
hyphens alone. Each SQL statement is atomic and enforces the PRIMARY KEY and UNIQUE columns of the schema. HTTP
header values, methods, paths and hosts contain no line break.

## Where the code and its documentation differ

- docs/auth.md:88 says replayed nonces are rejected. The code forgets a nonce as soon as a lock holder has a clock
  reading more than 300 seconds from it. Three things follow. A request whose timestamp is ahead of the reading it is
  accepted by outlives its nonce: `NonceCache.ReplayInLockOrder` proves that, as long as readings come in lock order,
  a request can be accepted again iff its timestamp was ahead. Readings need not come in lock order, because a request
  reads the clock before the key lookup and takes the lock after it: `NonceCache.OvertakenReplay` is a replay accepted
  that way, and `NonceCache.ReplayExactly` the condition for any order. And the map is empty after a restart of the
  daemon (apps/server/src/api/mod.rs:44). Over all interleavings, `RequestRace.AcceptableExactlyWhileInReach` proves
  that a signed request, accepted before or not, can be accepted in some continuation iff its timestamp is not yet
  more than 300 seconds old or a copy has read the clock in time and still waits for the lock.
- docs/auth.md:45-46 says redemption binds the key and then marks the invite used. The code marks it first, and a
  removal may run in between: `IdentityRuns.RedeemedMeansRegistered` proves that a redemption answered with a user
  id left a working key if and only if the user has not been removed.
- docs/auth.md:22 speaks of several keys per user; the code stores one, written at most once
  (`IdentityRuns.KeyWrittenOnce`).
- docs/manifest.md:177 makes cycles in references an error. The code rejects cycles of services:
  `Manifest.VariableCyclesRejected` proves that this covers every cycle of variables, and
  `CycleExample.ServiceCycleWithoutVariableCycle` shows a manifest rejected although it has none.
- A token whose text ends in `}` can only be written with a blank before the closing braces, because the scanner
  closes at the first `}}`: `Reference.ScanPrinted` proves that printing and scanning are inverse exactly on lists
  of tokens written so.

## Model

| member | source | states |
|---|---|---|
| Reference.TokenBijection | packages/manifest/src/reference.rs:43-81 | A token parses to a reference iff the reference is well formed (nonempty dot-free name, nonempty key) and prints as that token. |
| Reference.UniqueDecomposition | packages/manifest/src/reference.rs:27-38 | Every value has exactly one cut into literals free of `${{`, tokens ended by the first `}}`, and a tail or an unclosed token, and it is the one the scanner makes. |
| Reference.ScannerMeetsGrammar | packages/manifest/src/reference.rs:23-41 | Scanning succeeds with a list of references iff some lexical cut of the value has tokens that, trimmed, print those references in order. |
| Reference.ParseReferences | packages/manifest/src/reference.rs:23-41 | The scanner loop returns the meaning of the unique cut, or the first error from the left, and uses at least five characters per reference. |
| Reference.ScanPrinted | packages/manifest/src/reference.rs:27-38 | A printed list of padded references between literals scans back to the same list iff no token runs its last `}` into the closing braces. |
| Reference.UnseparatedExample | packages/manifest/src/reference.rs:29-37 | The smallest reference for which the blank matters: it scans back with one and not without. |
| Prelude.TrimExactly | packages/manifest/src/reference.rs:35 | Trimming a text gives the one part without white space at its ends that has only white space around it. |
| Prelude.WhitespaceExactly | packages/manifest/src/reference.rs:35 | The 25 white space characters of Unicode, listed. |
| Prelude.WordsExactly | packages/manifest/src/validate.rs:137 | The words of a text are those of any cut into words and gaps in which only the first and the last gap may be empty. |
| Reference.DocumentedForms | packages/manifest/src/reference.rs:62-75 | The five documented forms of a token, written out, parse to what they say. |
| Reference.TokenComplaintExactly | packages/manifest/src/reference.rs:43-81 | A token is refused for exactly the reason that is wrong with it. |
| Reference.FirstComplaintReported | packages/manifest/src/reference.rs:27-38 | A value is refused for the first thing wrong from the left: a bad token, or a last one that is never closed. |
| EnvCycle.CycleSearch.Visit | packages/manifest/src/validate.rs:294-320 | From a state where the visiting nodes are the stack and a path: either a genuine cycle, or the node is finished, the stack is as before, and finished nodes are in finish order. Terminates; inspects each edge at most once. |
| EnvCycle.CycleSearch.VisitTargets | packages/manifest/src/validate.rs:312-316 | The loop over a node's edges finishes all its targets or returns a genuine cycle. |
| EnvCycle.CycleSearch.Pop | packages/manifest/src/validate.rs:317-318 | Popping a node whose targets are finished keeps the finished nodes in an order where every edge leads back to an earlier one. |
| EnvCycle.CycleSearch.FindCycle | packages/manifest/src/validate.rs:271-330 | For any order of roots: no cycle is returned iff the graph has no closed walk; a returned one is a cycle of distinct nodes; edge inspections never exceed the number of edges. |
| EnvCycle.RankDecreases | packages/manifest/src/validate.rs:312-319 | The finish order ranks nodes so that the rank strictly decreases along every edge. |
| EnvCycle.RankAlongPath | packages/manifest/src/validate.rs:312-319 | After k steps along any path at least k ranks are lost. |
| EnvCycle.FinishOrderAcyclic | packages/manifest/src/validate.rs:322-329 | A finish order of all nodes with edges excludes every closed walk. |
| Manifest.BuildEdges | packages/manifest/src/validate.rs:272-286 | The edges are exactly the pairs of known services of which some parseable value of the first refers to a variable of the second. |
| Manifest.Validator.CheckReference | packages/manifest/src/validate.rs:244-270 | Adds an error iff the target is unknown or needs a port it does not declare, and exactly that error. |
| Manifest.Validator.CheckValue | packages/manifest/src/validate.rs:231-240 | Adds exactly the scan error of a value, or the complaints about its references. |
| Manifest.Validator.CheckDependencies | packages/manifest/src/validate.rs:145-157 | Adds exactly the self and unknown dependencies. |
| Manifest.Validator.ValidateService | packages/manifest/src/validate.rs:61-242 | The errors after are those before and exactly the complaints of the rules about this service: its name, fields, dependencies and values. |
| Manifest.Validator.Validate | packages/manifest/src/validate.rs:28-59 | Reports every complaint about the project name, the GitHub repository and the services, nothing but complaints and a genuine cycle, a cycle iff the service graph has one, and nothing iff the manifest is acceptable. |
| Manifest.AcceptedReferencesResolve | packages/manifest/src/validate.rs:231-270 | In an accepted manifest every value parses, every target exists, and port and url targets declare a port. |
| Manifest.ChainsAreShort | packages/manifest/src/validate.rs:271-330 | In an accepted manifest a chain of variable references has fewer steps than there are services and stays inside it. |
| Manifest.VariableCyclesRejected | packages/manifest/src/validate.rs:48-56 | A manifest in which a variable refers back to itself through any chain is rejected. |
| Manifest.OnlyVariablesMakeCycles | packages/manifest/src/validate.rs:279-283 | References to hosts, ports, urls and secrets alone never get a manifest rejected for a cycle. |
| CycleExample.ServiceCycleWithoutVariableCycle | packages/manifest/src/validate.rs:271-286 | A manifest of two services is rejected for their cycle and nothing else, although no chain of its variables is longer than two. |
| Manifest.AcceptedServicesAreSound | packages/manifest/src/validate.rs:61-229 | In an accepted manifest every service has a valid name and good fields; one with volumes runs in at most one container and is recreated. |
| FieldRules.ClimbsExactly | packages/manifest/src/validate.rs:369 | The component check finds exactly the `..` that stand between slashes or the ends of a path. |
| FieldRules.RepoExactly | packages/manifest/src/validate.rs:351-362 | A repository is accepted iff it is an owner and a name, nonempty and free of slashes, around one slash. |
| FieldRules.ValidRepoComponents | packages/manifest/src/validate.rs:351-362 | A repository is accepted iff splitting it at slashes gives two nonempty parts. |
| FieldRules.MemoryExactly | packages/manifest/src/validate.rs:342-349 | A memory size is accepted iff it is some digits and one of four units. |
| FieldRules.CronExactly | packages/manifest/src/validate.rs:136-143 | A cron line is accepted iff it is five words between white space. |
| FieldRules.FieldErrorsExactly | packages/manifest/src/validate.rs:61-229 | The field checks report exactly the broken rules, each with its path and problem. |
| FieldRules.GoodFieldsExactly | packages/manifest/src/validate.rs:61-229 | No rule is broken iff the fields are good, field by field. |
| FieldRules.SoundFields | packages/manifest/src/model.rs:113-136 | Good fields name exactly the source that was set, never run a stateful service twice, and put the declared strategy into effect. |
| Identity.ConsumeKeeps | apps/server/src/api/db/invite.rs:32-44 | Consuming a redeemable invite keeps every invariant of the tables and their history, single consumption among them. |
| Identity.WriteKeyKeeps | apps/server/src/api/db/invite.rs:61-67 | Setting the key keeps every invariant, in particular one write per user. |
| Identity.RunKeeps | apps/server/src/api/db/user.rs:25-92 | The invariant holds after every sequence of statements of mints, redemptions and removals. |
| IdentityRuns.KeyWrittenOnce | apps/server/src/api/db/invite.rs:26-70 | In every run a user's key is written at most once, by the process and with the key that consumed that user's only invite; the stored key is the written one, and there is one iff there was a write. |
| IdentityRuns.InviteConsumedOnce | apps/server/src/api/db/invite.rs:32-44 | In every run an invite is consumed at most once, strictly before its expiry, 24 hours after it was created; a stored invite is marked redeemed at a moment iff it was consumed then. |
| IdentityRuns.KeyMeansRedeemed | apps/server/src/api/db/invite.rs:26-70 | In every run the stored invite of a user with a key is marked redeemed. |
| IdentityRuns.RemovalIsFinal | apps/server/src/api/db/user.rs:74-117 | Once a user is deleted, no continuation of the run brings its row or its key back. |
| IdentityRuns.RemovalDeletes | apps/server/src/api/db/user.rs:86-89 | The last statement of a removal leaves its user deleted. |
| IdentityRuns.RemovalIsPrecise | apps/server/src/api/db/user.rs:74-92 | A removal in flight leaves the row and invites of any user created after its lookup untouched. |
| IdentityRuns.RedeemedMeansRegistered | apps/server/src/api/db/invite.rs:46-69 | A redemption that answered with a user id has its own key resolve for that id, iff the user has not been removed. |
| IdentityRuns.RefusedMeansUntouched | apps/server/src/api/db/invite.rs:42-44 | A refused redemption consumed no invite and wrote no key. |
| IdentityRuns.UsersAccountedFor | apps/server/src/api/db/mod.rs:18-31 | In every run created users are live or deleted and never both, live names are unique, and invites belong to created users. |
| IdentityRuns.UserNameExactly | apps/server/src/api/invite.rs:80-91 | A user name is accepted iff it is not empty and made of the 38 characters listed. |
| IdentityRuns.MintAlone | apps/server/src/api/invite.rs:20-57 | Run alone, a mint creates a user without a key and its one invite, good for 86400 seconds, or changes nothing. |
| IdentityRuns.RedeemAlone | apps/server/src/api/db/invite.rs:26-70 | Run alone, a redemption of a redeemable invite sets the invited user's key and spends the invite; any other changes nothing. |
| IdentityRuns.RemoveAlone | apps/server/src/api/db/user.rs:74-92 | Run alone, a removal deletes the user of that name and its invites and nothing else. |
| IdentityRuns.MintThenRedeem | apps/server/src/api/invite.rs:44-54 | A minted invite redeemed before its expiry makes the user's key resolve to that identity; later it does not. |
| IdentityRuns.Db.CreateUser | apps/server/src/api/db/user.rs:25-49 | Refuses a taken name, fails on a taken id, else adds exactly this row. |
| IdentityRuns.Db.CreateInvite | apps/server/src/api/db/invite.rs:8-25 | Adds exactly this invite, or fails on a repeated token hash and changes nothing. |
| IdentityRuns.Db.MintInvite | apps/server/src/api/invite.rs:20-57 | Answer and tables are those of the mint program run alone. |
| IdentityRuns.Db.RedeemInvite | apps/server/src/api/db/invite.rs:26-70 | Answer and tables are those of the redemption program run alone. |
| IdentityRuns.Db.RemoveUser | apps/server/src/api/db/user.rs:74-92 | Answer and tables are those of the removal program run alone. |
| RequestSigning.CanonicalText | packages/auth/src/lib.rs:23-35 | The signed text, line by line. |
| RequestSigning.CanonicalInjective | packages/auth/src/lib.rs:23-35 | Two requests without line breaks in their fields have the same signed text iff all seven fields are equal. |
| RequestSigning.ValueOfDecimal | packages/auth/src/lib.rs:32-34 | The decimal rendering of a timestamp determines it. |
| RequestSigning.ParseRendered | apps/server/src/api/auth.rs:102-104 | A rendered 64-bit timestamp parses back to itself. |
| RequestSigning.ParseExactly | apps/server/src/api/auth.rs:101-104 | A timestamp parses to a number iff it is a rendering of that 64-bit number, perhaps with zeros and a plus sign in front. |
| NonceCache.CacheHoldsRemembered | apps/server/src/api/auth.rs:157-159 | For any clock the map holds a nonce iff its latest attempt has stayed within 300 seconds of every clock reading since. |
| NonceCache.RefusedExactly | apps/server/src/api/auth.rs:157-161 | For any clock an attempt is refused iff the latest earlier attempt with its nonce is within 300 seconds of every later reading, its own included. |
| NonceCache.AcceptedExactly | apps/server/src/api/auth.rs:154-162 | For any readings in any order a used nonce is accepted again iff its own reading, or one recorded since, is more than 300 seconds from the last use. |
| NonceCache.PrunedRefinesLog | apps/server/src/api/auth.rs:154-162 | A nonce is refused only if some earlier verified attempt used it within 300 seconds, and always then when readings come in lock order. |
| NonceCache.AcceptancesFarApart | apps/server/src/api/auth.rs:154-162 | Between two uses of a nonce of which the second is accepted, a reading more than 300 seconds from a use was recorded; in lock order the two uses themselves are that far apart. |
| NonceCache.ReplayExactly | apps/server/src/api/auth.rs:106-162 | A request repeated in time, whose timestamp was not ahead of its last recorded reading, is accepted iff an attempt locked in between had a reading more than 300 seconds away. |
| NonceCache.OvertakenReplay | apps/server/src/api/auth.rs:106-157 | Timely readings 100, 401, 400 in the order of the lock: the replay of the first request is accepted, and is refused without the second. |
| NonceCache.ReplayInLockOrder | apps/server/src/api/auth.rs:106-162 | As long as readings come in lock order, a request just attempted can be accepted again in some continuation iff its timestamp was ahead of its reading. |
| RequestRace.AcceptableExactlyWhileInReach | apps/server/src/api/auth.rs:106-162 | In every state of interleaved requests on a monotone clock, a signed request can be accepted in some continuation, with or without a restart, iff its timestamp is at most 300 seconds old or ahead, or a copy waits for the lock. |
| RequestRace.StaysOutOfReach | apps/server/src/api/auth.rs:106-109 | Once a timestamp is more than 300 seconds old and no copy waits, no continuation changes that. |
| RequestRace.OrderedRunsLogInOrder | apps/server/src/api/auth.rs:106-157 | If no request overtakes another between clock and lock, readings come in lock order. |
| RequestRace.OrderedRunsAcceptOnce | apps/server/src/api/auth.rs:106-162 | In such a run of one daemon a request is not accepted again unless its timestamp was ahead of its first reading. |
| RequestAuth.ApiState.TakeNonce | apps/server/src/api/auth.rs:156-162 | Prune and insert keep the map equal to what the log leaves, and answer whether the log accepts the attempt. |
| RequestAuth.VerifiedExactly | apps/server/src/api/auth.rs:83-152 | What has to be in order, header by header: the values signed, the window of 300 seconds, the stored key and its user. |
| RequestAuth.ApiState.VerifyRequest | apps/server/src/api/auth.rs:86-152 | Before the lock: passes iff that is in order, with the key's owner and the hash in small letters; otherwise the reason given is true. |
| RequestAuth.SignedHashAdmits | apps/server/src/api/auth.rs:164-166 | The hash handed on admits exactly the bodies of allowed length whose digest is the header's, up to the case of its letters. |
| RequestAuth.ApiState.CheckedRequest | apps/server/src/api/auth.rs:83-169 | Accepts iff headers, window, key and signature are in order and the log of verified attempts leaves the nonce unused; records exactly the verified attempts; the clock and the key may have been read any time before the lock. |
| RequestAuth.SameTextSameAttempt | apps/server/src/api/auth.rs:140-152 | Requests with the same signed text carry the same nonce and timestamp. |
| RequestAuth.SignedTextRepeated | apps/server/src/api/auth.rs:106-162 | A signed text recorded when its timestamp was not ahead, and sent again in time, is accepted iff an attempt locked since had a reading more than 300 seconds away; never when readings come in lock order. |
| Archive.ReleaseDir.Receive | apps/server/src/api/routes.rs:441-478 | The streaming loop gives the verdict of the frame-by-frame specification; once the last checks are reached the file is the specified one, and an upload stopped before leaves some prefix of it. |
| Archive.ReceivedExactly | apps/server/src/api/routes.rs:455-477 | Success iff no frame failed and the bytes number between 1 and 2 GiB and match the signed hash, if any; then the file is all the data. |
| Archive.TooLargeExactly | apps/server/src/api/routes.rs:455-463 | An upload is too large iff some unbroken run of first frames exceeds 2 GiB. |
| Archive.ReadFailedExactly | apps/server/src/api/routes.rs:455-463 | A read failure is reported iff a broken frame comes before the data is too much. |
| Archive.RefusedExactly | apps/server/src/api/routes.rs:469-476 | Of an unbroken body, emptiness is reported iff it has no data, and a hash mismatch iff it has an allowed amount with another digest. |
| Archive.FramingIrrelevant | apps/server/src/api/routes.rs:455-477 | Two intact bodies with the same bytes get the same verdict and, if accepted, the same file. |
| Handlers.AloneIsARun | apps/server/src/api/routes.rs:69-436 | Running a request alone is a run: from any state its statements in a row lead to that outcome. |
| Handlers.UnsignedAlone | apps/server/src/api/auth.rs:66-77 | An unsigned request is unauthorized unless it redeems an invite. |
| Handlers.WhoamiAlone | apps/server/src/api/routes.rs:71-90 | A caller is told who it is, and the name of its project if it is scoped to one that exists. |
| Handlers.CreateProjectAlone | apps/server/src/api/routes.rs:105-146 | Forbidden to scoped callers; a bad name or id is refused; a taken name or asked id is a conflict; otherwise exactly one row is added, under the asked id or else the drawn one. |
| Handlers.LabelExactly | apps/server/src/api/routes.rs:522-530 | A project name is accepted iff it is 1 to 63 of the 37 characters listed, without a hyphen at either end. |
| Handlers.DrawnIdExactly | apps/server/src/api/routes.rs:511-518 | An id is accepted iff it is `prj_` and 16 of the hex digits listed. |
| Handlers.CreateUserAlone | apps/server/src/api/routes.rs:151-214 | Forbidden, bad request, unknown project and conflict in that order; otherwise exactly one user without a key and its one invite are added. |
| Handlers.RemoveUserAlone | apps/server/src/api/routes.rs:245-265 | The users after are those of another name; the answer says whether there was one of this name. |
| Handlers.RedeemInviteAlone | apps/server/src/api/auth.rs:31-64 | A live invite is spent and its user's key set; a bad key, or an unknown, spent or expired invite, changes nothing. |
| Handlers.ListUsersAlone | apps/server/src/api/routes.rs:216-243 | An admin is shown every user, and that it has a key iff one is stored. |
| Handlers.ListProjectsAlone | apps/server/src/api/routes.rs:267-289 | An admin is shown every project. |
| Handlers.ListReleasesAlone | apps/server/src/api/routes.rs:387-436 | Forbidden outside the caller's scope, not found without the project, and otherwise every release of the project and no other. |
| Handlers.CreateReleaseAlone | apps/server/src/api/routes.rs:305-385 | An admitted upload adds exactly its row and archive; the row repeats the project, message and times sent and says how it ended, and so does the answer. |
| Scoping.ScopedStatementStaysInside | apps/server/src/api/routes.rs:105-436 | A statement of a caller scoped to a project changes no user, invite or project, and no upload but its own, which is a release of that project. |
| Scoping.ScopedRunStaysInside | apps/server/src/api/routes.rs:305-436 | Over any run of callers of one project, users, projects and the releases of every other project stay as they were. |
| Scoping.ForbiddenExactly | apps/server/src/api/routes.rs:105-436 | A request is forbidden iff its caller is scoped and asks for administration or for another project than its own. |
| Scoping.ScopedListing | apps/server/src/api/routes.rs:267-289 | Listing projects shows a scoped caller its own project row or nothing. |
| Scoping.ScopedMoveDependsOnView | apps/server/src/api/routes.rs:267-436 | The next move of a scoped caller's request, answers included, depends only on its project row, that project's releases and its own upload. |
| Scoping.CommonStatement | apps/server/src/api/routes.rs:69-436 | The same statement in two worlds that agree for a project keeps them agreeing and gives scoped callers the same answer. |
| Scoping.Noninterference | apps/server/src/api/routes.rs:267-436 | Deleting from any run all actions of callers scoped to other projects changes no response a caller scoped to this project sees. |
| Uploads.OwnProgress | apps/server/src/api/routes.rs:305-385 | Each statement of an upload keeps row, file and remaining frames consistent with how the upload must end. |
| Uploads.ReadyMeansReceived | apps/server/src/api/routes.rs:305-478 | In every reachable state an upload is answered with a release iff its body was an intact, acceptable, unpackable archive, all of it received, from a sender with access to that existing project; the row is ready or failed accordingly, unless the final status update was lost. |
| Uploads.RowTellsUpload | apps/server/src/api/db/release.rs:18-67 | In every reachable state a release row repeats the project, message and times of its upload as sent. |
| Uploads.StatusSettlesOnce | apps/server/src/api/db/release.rs:52-67 | No action removes a release row or changes one that has left Unpacking; leaving it changes only status, error and update time. |
| Projects.ProjectsOnlyGrow | apps/server/src/api/db/project.rs:13-45 | In every interleaving project rows stay as created and project names stay unique. |
| Projects.ProjectInsertedAsAsked | apps/server/src/api/routes.rs:105-146 | In every interleaving a project row appears only through an admin's request, with the name and time of that request, under the id it asked for or else drew, and is answered with that row. |
| Projects.CreatedMeansStored | apps/server/src/api/db/project.rs:13-45 | In every interleaving a creation answered with a project has stored it as asked, and it stays. |
| Projects.ScopesStayKnown | apps/server/src/api/routes.rs:151-214 | In every interleaving, redemptions included, every stored user is an admin or scoped to a project that exists, and so is every user about to be inserted. |
| Projects.UserInsertedAsAsked | apps/server/src/api/routes.rs:151-214 | In every interleaving, redemptions included, a user row appears only through an admin's request, with the name, scope and id of that request and no key. |
| Projects.WhoamiNamesProject | apps/server/src/api/routes.rs:71-90 | In every interleaving a stored scoped user is told the name of its project, which exists. |
| ClientStore.RebindValues | apps/cli/src/config.rs:113-120 | Every project bound to one entry is bound to the other, nothing else changes, and the count is how many moved. |
| ClientStore.Store.RebindProjects | apps/cli/src/config.rs:113-126 | The same on the stored bindings, written once iff something moved. |
| ClientStore.Store.RemoveProjectBinding | apps/cli/src/config.rs:103-110 | Removes this binding alone, returns what it was, and writes only if there was one. |
| ClientStore.Store.SupersedeEntry | apps/cli/src/commands/login.rs:212-213 | One superseded entry goes, its projects move, and no write in between leaves a binding dangling. |
| ClientStore.Store.SupersedeProjectEntries | apps/cli/src/commands/login.rs:199-222 | Exactly the entries of the server confirmed to be scoped to a project go, so those of admins stay; the bindings are the old ones with those entries replaced by the admin's; the counts match; after every write all that resolved still resolves. |
| ClientStore.BindingExactly | apps/cli/src/resolve.rs:165-180 | Bound, stale and unbound, each by the binding and the entry there is or is not. |
| ClientStore.CoversExactly | apps/cli/src/commands/login.rs:224-241 | The CLI takes an identity to cover a project iff the server lets that user touch it. |
| ClientStore.Store.ExistingAccess | apps/cli/src/commands/login.rs:226-241 | Finds an entry of that server whose identity is an admin or scoped to the project iff there is one. |
| ClientStore.Store.Login | apps/cli/src/commands/login.rs:89-174 | Redeems iff the invite is live, adds access and has a free name; each refusal is given iff its reason holds and writes nothing, and the user's own entries are never one; on success binds the project to an entry that gives access, or supersedes entries; no write leaves a binding dangling. |
| ProjectName.SanitizeProjectName | apps/cli/src/commands/init.rs:290-301 | Lowercasing, the buffer loop, the cut and the trim compute the specified name. |
| ProjectName.SanitizedWords | apps/cli/src/commands/init.rs:290-301 | The name is the words of letters and digits in the lowercased input, with one hyphen between neighbours, cut at 63 characters and then without a last hyphen. |
| ProjectName.EmptyOrValid | apps/cli/src/commands/init.rs:290-301 | The result is empty iff the lowercased input has no letter a-z and no digit; otherwise both validators accept it. |
| ProjectName.KeepsLettersAndDigits | apps/cli/src/commands/init.rs:292-300 | The letters and digits of the result are the first ones of the input, all of them if nothing had to be cut. |
| ProjectName.IdentityOnTidyNames | apps/cli/src/commands/init.rs:290-301 | A valid name is left alone, lowercasing included, iff it has no double hyphen. |
| ProjectName.Idempotent | apps/cli/src/commands/init.rs:290-301 | Sanitizing twice, lowercasing both times, is sanitizing once. |
| ProjectName.ValidatorsAgree | apps/server/src/api/routes.rs:522-530 | The server's and the manifest's name rules accept the same names. |

## Left out

- Manifest.Validator.Validate: the order of reported errors and their texts are not stated; CPU limits are real numbers, so not NaN.
- Routes.Statement: a listing answers the set of rows; the ORDER BY of the queries and the loops that fill the vectors are not modelled.
- Routes.Statement: the invite blob returned with a new user, and failures of the database or file system other than key conflicts and a lost status update, are not modelled; a request may stop for good after any statement. The bytes kept for a failed upload are those received; the file may hold fewer.
- Identity.Statement: times are unbounded, the cast to a signed 64-bit column is not modelled.
- RequestAuth.ApiState.CheckedRequest: the error texts, and which of several missing headers is named, are not modelled.
- ClientStore.Store.Login: private key files, unreadable server entries and failing writes are not modelled; the derived entry name is an input; `list_servers` returns every entry once, its order by name is not stated.
- `verify_body_hash`: compares a buffered body with the signed hash; one comparison.
- `find_manifest`, `offer_project_link` and the prompts of `init` and `link`: file system walks and dialogue around `RecordProjectBinding`.
- Proxy routing, the daemon, SSH, git and packing of archives: input and output.
- The reconciler, plans, builds and secrets of docs/model.md: described there, not in the code.
