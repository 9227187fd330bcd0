# Users service: verified model

A Dafny 4.11 model of the logic of the users service: group-role synchronisation, resolve-or-create under
concurrency, username derivation and allocation, API tokens, keyset pagination and its drain loops, device liveness,
the UPDATE builder, prefix search, and the order of calls across services. `dafny verify dfyconfig.toml` checks it.

Code that works by changing things is modelled by methods, and by classes where an object's fields change; their
contracts tie the result or the new state to specification functions and predicates. What runs concurrently (the sync
protocol, resolve-or-create, the Ziti bookkeeping and the cluster-admin tuples) is a state machine over single calls.

| file | what it models |
|---|---|
| `Prelude.dfy`, `Chains.dfy`, `Positional.dfy`, `SortedStrings.dfy`, `GroupAttributes.dfy` | shared values, sequences of steps, positional numerals and lexicographic order, sorting, devices and the `group-` attributes |
| `SyncProtocol.dfy`, `SyncProgress.dfy`, `SyncTermination.dfy`, `SyncRace.dfy` | the group-role sync protocol: its invariant, quiescent convergence with any number of jobs, that it comes to rest by itself when left alone, and which overlaps of jobs break it |
| `GroupSync.dfy`, `EventOrder.dfy` | the sync, event handler and reconciliation as the server runs them; what any sequence of them does to a device, whatever the order and the duplicates |
| `ResolveProtocol.dfy`, `ResolveDeletion.dfy` | any number of concurrent callers of ResolveOrCreateUser, with registration, compensating deletes and other requests; exactly which deletions they survive |
| `Username.dfy`, `Candidates.dfy`, `Allocation.dfy` | normaliser, suffixes, candidate iterator, allocation loop |
| `UserStore.dfy`, `UpdateBuilder.dfy`, `UserSearch.dfy` | the users table and its statements, the UPDATE builder, LIKE escaping and search |
| `ApiToken.dfy` | base-62 tokens |
| `Pagination.dfy`, `PageToken.dfy` | pages, drains, page tokens |
| `Liveness.dfy` | the liveness poller |
| `ZitiReferences.dfy`, `AdminTuples.dfy`, `ClusterRoles.dfy` | references across services: call by call under any interleaving, and request by request with full contracts |

## Assumptions

- A SQL statement is atomic, and a call that fails has no effect. Generated UUIDs and Ziti identity ids are fresh.
- The text of an id is a string of bytes.
- Sync protocol: every change of the reported user/group relation publishes an event, not before the change shows; a
  group that does not change during a read is reported as it is; a job handling an event overlaps no other job (event,
  reconciliation or `CreateDevice`) of the same user. Jobs of different users, and reconciliations and creations of one
  user, overlap freely, and membership changes, device deletions, publications, redeliveries and deliveries that come
  after their event's acknowledgement happen anywhere.
- The attributes Ziti itself puts on a new identity never start with `group-`.
- Cluster-admin tuples: this service alone writes and deletes them.
- Resolve-or-create: no user is deleted whom a caller holds (has been, or is about to be, answered). Other requests
  insert, update and delete users freely besides.
- Liveness: one poller at a time, and its clock does not go back. Two instances polling could overwrite each other's
  enrolment times and move last-seen times back.
- The groups service's page tokens do not go round in circles (`PagesEnd`).
- Lower-casing rewrites one character at a time and leaves `[a-z0-9_-]` alone; SHA-256 is any function to 32 bytes.
- The collation of the username column is some strict total order.

## Findings

- The server takes no lock between the event consumer and the other jobs of a user. The devices converge if and only if
  a job handling an event overlaps no other job of its user (`ConvergesExactlyWithoutOverlap`). Each of the three
  overlaps breaks it alone: with a reconciliation, with a `CreateDevice`, and with another event (a second instance of
  the service). From every reachable state, for every user, group and new device, such a run ends with every event
  acknowledged and the device carrying a group its owner left (`EachOverlapBreaksConvergence`); reconciliation never
  removes it.
- Skipping an unchanged offline device differs from writing it for exactly one kind of row: marked enrolled, with no
  enrolment time (`SkipDiffersExactlyWhen`). Such rows do not arise from devices created by the service.
- A numeric username candidate repeats the base exactly when the base has 31 or 32 characters and already ends in that
  suffix (`NumericCandidateVersusBase`), so the candidates are not always pairwise distinct.
- The compensating delete after a failed identity registration takes a user away whom another caller may have found in
  between; the next caller for the subject is then answered another identity. From every sound state, that delete and
  every other deletion leave the answers in agreement for good exactly when nobody holds the user
  (`SplitsExactlyWhenHeld`), and make nobody fail on a user just reported as taken exactly when nobody is about to look
  that user up again (`LosesExactlyWhenAwaited`).
- A tuple can be left for nobody when a request that may grant a user the cluster-admin role overlaps one that may
  delete that user, be it `DeleteUser` or the compensating delete of a creation. From every sound state that condition
  is exact (`ConditionIsExact`); requests for different users, and un-grants, overlap safely.

## Model

| member | source | states |
|---|---|---|
| SyncProtocol.StepKeepsInv | internal/server/group_sync.go:170-191 | every step of any number of jobs (membership change, publish, redelivery, late delivery, page read, device page, patch, acknowledgement, failure, device creation and deletion) keeps the sync invariant |
| SyncProtocol.PatchedDeviceCovered | internal/server/group_sync.go:180-188 | after its patch a device is wrong about a group only if an event other than the one being handled is outstanding for it |
| SyncProtocol.FinishKeepsInv | internal/server/group_consumer.go:81-92 | acknowledging the handled event after the last patch uncovers no mismatch |
| SyncProtocol.MakeIdentityKeepsInv | internal/server/server.go:473-489 | an identity made with the groups read earlier keeps the invariant beside any other jobs |
| SyncProtocol.InsertRowKeepsInv | internal/server/server.go:493-507 | a device stored with the groups read earlier is covered by outstanding events where those are out of date |
| SyncProtocol.MismatchesAreCovered | internal/server/group_sync.go:170-191 | in every state of every run, a stale or missing group attribute on a stored device has an unpublished or unacknowledged event for that user and group |
| SyncProtocol.QuiescentConvergence | internal/server/group_sync.go:117-149 | when no event is outstanding and no job runs, each stored device's `group-` attributes are exactly its owner's current groups |
| SyncProtocol.OtherAttributesUntouched | internal/server/group_sync.go:233-235 | attributes without the `group-` prefix never change over an identity's life |
| SyncProgress.CanAlwaysSettle | internal/server/group_consumer.go:76-97 | from every reachable state a quiescent state with the same memberships and devices can be reached |
| SyncTermination.CalmEnds | internal/server/group_consumer.go:76-97 | once memberships stop changing and nothing fails, is redelivered or newly begun, there is no endless run: each step of the jobs under way and of due deliveries lowers a well-founded measure |
| SyncTermination.UnrestGoesOn | internal/server/group_consumer.go:76-97 | while something is outstanding or under way, such a step is possible |
| SyncTermination.CalmConverges | internal/server/group_sync.go:117-191 | so from every reachable state, in whatever order those steps are taken, every stored device ends with exactly its owner's groups and nothing is outstanding |
| SyncTermination.CalmRunFrom | internal/server/group_consumer.go:76-97 | from every state there are such runs |
| SyncRace.EachOverlapBreaksConvergence | internal/server/group_consumer.go:76-117 | from every reachable state, each of the three overlaps alone leads on to a quiescent state in which a device, of any user and group, carries a group its owner left |
| SyncRace.ConvergesExactlyWithoutOverlap | internal/server/group_consumer.go:76-117 | whichever overlaps are allowed, every quiescent state is exact if and only if none is |
| GroupSync.ListUserOrganizationIDs | internal/server/group_sync.go:102-114 | the parsed organizations, in order; an error exactly when one object is malformed |
| GroupSync.ListOrganizationGroups | internal/server/group_sync.go:72-88 | the page loop appends all pages of one organization, or fails when a page fails |
| GroupSync.ListUserGroups | internal/server/group_sync.go:58-91 | all groups over all pages of all organizations; an error if any call or object is bad |
| GroupSync.ReportedMeans | internal/server/group_sync.go:58-114 | a group counts as reported exactly when some page reached from the first, of some organization the user belongs to, lists it; there is no report exactly when the objects cannot be had, one is malformed, a page reached fails or a listed group has no id |
| GroupSync.OrganizationObject | internal/server/group_sync.go:102-114 | an organization's object is `organization:` and its id |
| GroupSync.UserGroupRoleAttributes | internal/server/group_sync.go:32-56 | strictly ordered, `group-` and the id for exactly the groups that some page of some organization of the user lists; an error exactly when the objects cannot be had, one is malformed, a page fails or a listed group has no id; empty without a groups client |
| GroupSync.StaleCandidateAttributes | internal/server/group_sync.go:209-231 | the candidates that are neither desired nor empty, sorted and duplicate-free |
| GroupSync.Directory.ListAllUserDevices | internal/server/group_sync.go:193-207 | exactly the user's device rows |
| GroupSync.Directory.SyncUserDeviceGroupRoles | internal/server/group_sync.go:170-191 | on success every device of the user is patched with the desired and stale attributes; on failure each is either patched or as before; other identities never change; it succeeds when nothing stands in its way |
| GroupSync.Directory.HandleGroupMembershipEvent | internal/server/group_sync.go:117-149 | which messages are ignored and which refused; added and removed messages alike leave the member's devices with exactly the groups reported, without the group named if it is not reported, and otherwise as they were; it succeeds when nothing stands in its way |
| GroupSync.PatchedMeans | internal/server/group_sync.go:136-191 | what a handled event makes of one device's attributes |
| GroupSync.Directory.ReconcileAllUserDeviceGroupRoles | internal/server/group_sync.go:151-168 | a completed pass leaves every device of every user with at least the desired attributes; any pass only adds attributes desired for the device's owner and removes none; it completes when no listing fails and no listed user is hindered |
| EventOrder.RemovalIsStaleHint | internal/server/group_sync.go:209-231 | the protocol's removals are the ones the server computes |
| EventOrder.AddAndRemoveDisjoint | internal/server/group_sync.go:175-185 | additions and removals never overlap, so the patch may apply them in either order |
| EventOrder.OpsResult | internal/server/group_sync.go:136-191 | for fixed groups D, events naming R and passes in any mix take A to (A + D) less (R less D) |
| EventOrder.OrderAndDuplicatesDoNotMatter | internal/server/group_sync.go:117-149 | two histories naming the same groups have the same result |
| EventOrder.ServeRequests | internal/server/group_consumer.go:81-92 | any sequence of membership messages and passes, failing wherever they may, acts on each device as a history of additions and removals for its owner |
| EventOrder.AllServed | internal/server/group_sync.go:117-191 | when all of them succeed, a device ends with what it had plus its owner's groups, less the groups named and not held |
| ResolveProtocol.StepKeepsInv | internal/store/store.go:252-308 | every call of every caller, whichever violated index is reported, and every write of another request keeps the invariant, where no user is deleted whom a caller holds |
| ResolveProtocol.ResolveAgreement | internal/server/server.go:182-231 | in every such run: unique subjects and usernames, one identity per subject among all answers, at most one answer that created it; and where no awaited user is deleted either, no caller ending on a lost user |
| ResolveProtocol.AnswersLast | internal/server/server.go:212-231 | an answered identity exists with its subject in every later state |
| ResolveDeletion.SplitsExactlyWhenHeld | internal/server/server.go:217-225 | from every sound state, a deletion, the compensating one or another, leaves the answers in agreement for good if and only if nobody holds the user |
| ResolveDeletion.LosesExactlyWhenAwaited | internal/store/store.go:291-302 | a deletion lets nobody fail on a user just reported as taken if and only if nobody is about to look that user up again |
| Username.NormalizeUsernameCandidate | internal/server/username.go:51-85 | the loop yields the maximal runs of word characters of the lowered input joined by single dashes, cut to 32 |
| Username.NormalizedKeepsContent | internal/server/username.go:51-85 | word characters are kept (a prefix of them when cut); empty exactly when there are none; no leading or double dash; a final dash only at 32 characters |
| Username.NormalizedWord | internal/server/username.go:51-85 | a text of word characters only stays whole, cut to 32 |
| Username.NormalizedAtBreak | internal/server/username.go:51-85 | a character that is no word character separates what stands before and after it by one dash; with the law for words this determines the normaliser |
| Username.ValidUsernameMeans | internal/server/username.go:25-36 | exactly the texts of 1 to 32 characters from `a-z0-9_-` are valid |
| Username.NormalizeTwice | internal/server/username.go:51-85 | a second application strips trailing dashes only, and the result is a fixed point |
| Username.DeriveUsernameBase | internal/server/username.go:87-100 | the normalised preferred username unless empty, else the email's local part, else the name; else `user-` and the first eight hexadecimal digits of the subject's hash |
| Username.DerivedBaseIsGood | internal/server/username.go:87-108 | every derived base is non-empty, at most 32 long, tidy, and ends in a dash only at 32 |
| Username.SuffixedIsWellFormed | internal/server/username.go:145-153 | a suffixed good base is a valid username without leading, trailing or double dashes |
| Username.SuffixedKeepsBase | internal/server/username.go:145-153 | the suffix is whole; before it stands the base if it fits, else as much of its beginning as fits less the dashes at the cut |
| Username.SuffixedEqualsBase | internal/server/username.go:145-153 | suffixing gives back the base exactly when it has at least 31 characters and ends in the suffix |
| Candidates.UsernameCandidateIterator.constructor | internal/server/username.go:117-122 | the iterator starts at the base |
| Candidates.UsernameCandidateIterator.Next | internal/server/username.go:124-143 | the base, then -2 to -99, then five random suffixes; errors and exhaustion exactly where they belong and without moving |
| Candidates.DecimalDenotes | internal/server/username.go:130 | a numeric suffix is its number in decimal, without leading zero |
| Candidates.RandomUsernameSuffix | internal/server/username.go:155-167 | one letter per random number, or an error when a draw fails |
| Candidates.CandidatesWellFormed | internal/server/username.go:124-153 | every candidate is a valid username; only an uncut base may end in a dash |
| Candidates.NumericCandidatesDistinct | internal/server/username.go:129-141 | a numeric candidate differs from every other numeric and every random one |
| Candidates.NumericCandidateVersusBase | internal/server/username.go:129-133 | exactly when a numeric candidate repeats the base |
| Candidates.SomeNumericCandidateFree | internal/server/username.go:129-133 | fewer than 98 taken names leave a numeric candidate free |
| Allocation.AllocateAndCreate | internal/server/server.go:687-713 | the first free candidate is taken; at most 104 attempts; with fewer than 98 names taken and a new subject it succeeds without randomness; what each error means |
| Allocation.FewNamesSuffice | internal/server/server.go:687-713 | how the allocation guarantee follows from the pigeonhole |
| UserStore.UserTable.CreateUser | internal/store/store.go:310-340 | inserted exactly when id, subject and username are new; every column as given; the reported conflict is a real one; nothing changes on error |
| Allocation.ResolveCandidates | internal/server/server.go:196-211 | the user with the subject, or a new one under the first free candidate; what each error means |
| UserStore.UserTable.ResolveOrCreateUser | internal/store/store.go:252-308 | undisturbed: a known subject is returned, a new one created with every column as given |
| UserStore.UserTable.UpdateUser | internal/store/store.go:405-443 | column by column, exactly the given fields of exactly that row change; each error exactly when it is due; the indexes hold |
| UserStore.UserTable.DeleteUser | internal/store/store.go:445-454 | that row goes, or not found |
| UserStore.FieldsOfAreUpdated | internal/store/store.go:405-422 | the added assignments amount to the record update asked for |
| UpdateBuilder.Builder.Add | internal/store/query_helpers.go:15-19 | the field joins the list of fields with the next placeholder |
| UpdateBuilder.Builder.Build | internal/store/query_helpers.go:25-41 | placeholder i is the i-th added value and the last one the id; executing the statement is the record update on that row only |
| UpdateBuilder.SetsAreFields | internal/store/query_helpers.go:15-41 | executing the SET clauses in order is applying the added fields in order |
| UserSearch.EscapedLikeIsPrefix | internal/store/store.go:503-506 | a name matches the escaped text followed by % exactly when it starts with the text |
| UserSearch.EscapedLikeIsEquality | internal/store/store.go:503-506 | the escaped text alone matches only itself |
| UserSearch.SearchReturnsPrefixMatches | internal/store/store.go:473-501 | the first matches in order, none missing below the limit, a stored exact match first |
| UserSearch.SearchReturnsRows | internal/store/store.go:473-501 | each entry has its row's columns; below the limit every row whose name starts with the prefix has an entry; the row with exactly that name comes first |
| UserSearch.AnswerExists | internal/store/store.go:475-484 | the query has an answer on every table |
| ApiToken.EncodeBase62 | internal/apitoken/apitoken.go:58-75 | the canonical base-62 numeral of the bytes' value |
| ApiToken.LengthBound | internal/apitoken/apitoken.go:32-40 | at most 43 digits for 32 bytes |
| ApiToken.Generate | internal/apitoken/apitoken.go:26-46 | 49 characters starting with `agyn_0`; the too-long error never occurs |
| ApiToken.TokenRoundTrip | internal/apitoken/apitoken.go:26-46 | decoding a token gives back the 32 bytes |
| ApiToken.TokenInjective | internal/apitoken/apitoken.go:26-46 | tokens are equal exactly when the bytes are |
| ApiToken.TokenOrder | internal/apitoken/apitoken.go:16-17 | text order of tokens is byte order of what they carry |
| Positional.StringLessMeans | internal/server/group_sync.go:54 | the order of the sorted attributes: at the first difference one text ends or has the smaller character |
| Positional.LexIsNumeric | internal/apitoken/apitoken.go:58-75 | at fixed width, lexicographic order is numeric order |
| Pagination.NormalizePageSize | internal/store/pagination.go:24-32 | 50 where none is given, at most 100, unchanged in between |
| Pagination.ListEntities | internal/store/pagination.go:53-115 | the first matching rows beyond the cursor, none skipped; a next cursor exactly when rows remain, namely the last id |
| Pagination.PageIsUnique | internal/store/pagination.go:65-113 | cursor and limit determine the page |
| Pagination.Drain | internal/server/group_sync.go:193-207 | under arbitrary writes between pages: ids strictly increase, every row present throughout appears, every row returned was there when its page was read; the loop ends |
| Pagination.StableDrain | internal/server/group_sync.go:193-207 | on an unchanged table a drain returns exactly the matching rows |
| Pagination.PageSizeDoesNotMatter | internal/store/pagination.go:24-32 | on an unchanged table all page sizes drain to the same list |
| PageToken.UuidTextRoundTrip | internal/store/pagination.go:34-51 | the UUID text form round-trips for every 128-bit id |
| PageToken.UuidTextMeans | internal/store/pagination.go:34-36 | the text is the id's 32 hexadecimal digits, most significant first, in groups of 8, 4, 4, 4 and 12 |
| PageToken.HexValueMeans | internal/server/server.go:810-819 | a digit is worth the same in either case, and nothing else is a digit |
| PageToken.UuidSpellings | internal/server/server.go:810-819 | the URN, braced and undashed spellings of an id are read back too |
| PageToken.SextetMeans | internal/store/pagination.go:34-36 | the alphabet is that of base64url |
| PageToken.EncodedMeans | internal/store/pagination.go:34-36 | the text is the number the bytes denote in digits of six bits, zero bits filling the last |
| PageToken.Base64RoundTrip | internal/store/pagination.go:34-51 | unpadded base64url round-trips for every byte string |
| PageToken.PageTokenRoundTrip | internal/store/pagination.go:34-51 | decoding a page token gives the id back; the token is base64url of the id's text |
| PageToken.PageCursorRoundTrip | internal/server/server.go:779-799 | cursor to token to cursor is the identity; the token is empty exactly when there is no next cursor |
| PageToken.TokensFollowCursors | internal/server/server.go:779-799 | following tokens over the RPC visits the pages that following cursors visits, whatever happens to the table |
| Liveness.DeviceTable.UpdateDeviceLiveness | internal/store/store.go:614-628 | exactly the four liveness columns of that row |
| Liveness.DeviceTable.PollDevice | internal/server/device_liveness.go:61-98 | column by column what one poll writes; when it writes nothing, and when it fails |
| Liveness.DeviceTable.PollDeviceLiveness | internal/server/device_liveness.go:35-59 | a completed pass polls each device of each user whose devices could be listed exactly once, and no other device; no pass polls a device twice, and only the four liveness columns change |
| Liveness.SkipDiffersExactlyWhen | internal/server/device_liveness.go:74-78 | the one kind of row for which skipping differs from writing |
| Liveness.SkipRefinesAlwaysWrite | internal/server/device_liveness.go:61-98 | over every run from fresh devices the skipping and the always-writing poller leave the same table; enrolled rows have an enrolment time, online rows a last-seen time |
| Liveness.LastSeenIsLastOnlinePoll | internal/server/device_liveness.go:72-87 | over every run, a device's last-seen time is the time of the last written poll that found it connected |
| Liveness.EnrolledAtIsFirstEnrolledPoll | internal/server/device_liveness.go:79-83 | over every run, a device's enrolment time is the time of the first successful poll that found it enrolled |
| Liveness.TimesOnlyAdvance | internal/server/device_liveness.go:79-87 | enrolment times are written once, last-seen times never go back |
| ZitiReferences.DeviceRowsAreBacked | internal/server/server.go:462-512 | under any interleaving and failures each device row names an existing identity, shared with no other row |
| ZitiReferences.StepKeepsInv | internal/server/server.go:534-555 | insert-after-create and delete-row-before-identity keep the references sound |
| ClusterRoles.Service.SyncClusterRole | internal/server/server.go:156-180 | the tuple is as asked on success, untouched on failure |
| ClusterRoles.Service.RegisterIdentity | internal/server/server.go:715-718 | registers once; a second time is refused as already existing |
| ClusterRoles.Service.CreateUser | internal/server/server.go:657-732 | refused as invalid exactly when the subject is empty, the role unknown or the given username invalid; success adds one registered user with the role and the name asked for, or the first free candidate of the base derived from the name, which is the name itself, normalised, where nobody has it; failure leaves no tuple and at most a row whose compensating delete failed; when it succeeds |
| ClusterRoles.Service.ResolveOrCreateUser | internal/server/server.go:182-231 | refused as invalid exactly when the subject is empty; a known subject is found whatever registration says; a created user has the first free candidate of the derived base (the preferred username, else the email's local part, else the name, where nobody has it) and stays only if registered; with fewer than 98 names taken a new subject succeeds unless a call fails |
| ClusterRoles.Service.UpdateUser | internal/server/server.go:293-357 | exactly when it is refused as invalid; the fields and the role change as asked, the role only for an existing user; the fields stay written when the role write fails |
| ClusterRoles.Service.UpdateMe | internal/server/server.go:573-604 | exactly when it is refused as invalid; the given name and username of the own row change, also when reading the role fails afterwards |
| ClusterRoles.Service.DeleteUser | internal/server/server.go:734-777 | the role is revoked before the row goes, at every point of failure |
| ClusterRoles.Serve | internal/server/server.go:156-357 | over any serial sequence of requests, any statement and any call failing, every admin tuple belongs to an existing user and every stored username is a valid one |
| AdminTuples.StepKeepsInv | internal/server/server.go:715-730 | insert before grant, look-up before grant and revoke before delete keep the references sound where no grant overlaps a deletion of the same user |
| AdminTuples.AdminsHaveRows | internal/server/server.go:156-180 | under that condition, whatever interleaves or fails, every admin tuple belongs to an existing user |
| AdminTuples.ConditionIsExact | internal/server/server.go:341-356 | from every sound state, a request may begin exactly when the requests under way cannot then leave a tuple without its user |

## Left out

- gRPC registration, request metadata and authorization checks, status codes, protobuf converters, NATS set-up, tickers
  and the retry back-off: no invariant of their own.
- Token listing, revocation and resolution, and the plain get and list endpoints: one-branch claims.
- SQL text: statements are values with their meaning; the UPDATE statement keeps its clauses and placeholders.
- Username.NormalizeUsernameCandidate: works on characters; invalid UTF-8 reaches it as replacement characters.
- ClusterRoles.Service.DeleteUser: organization memberships are an input, not state.
- Requests carry parsed identity ids; a malformed one is refused before anything else.
- SyncProtocol.QuiescentConvergence: the Ziti side is a map of attribute sets; a deleted identity makes its patch fail.
- Cascade deletion of API tokens: they take no part in any property here.
