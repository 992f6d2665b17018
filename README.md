# metasync reconciliation core, in Dafny

This project models the core of metasync, a tool that keeps the users,
permission groups, group memberships and database permission graph of a
Metabase server in line with YAML files kept under version control.
It covers:

- `metabase/sync.py`: the reconciler. `sync_users` diffs the desired users
  against the live ones by email and calls the user API to create, update,
  delete or reactivate. `sync_groups` skips the two protected groups and only
  reports, because its API calls are commented out.
- `metabase/serde.py`: the portable codec. Users and groups become flat
  records. Memberships become a mapping from group name to member emails. The
  permission graph is re-keyed from ids to names. Reading back inserts the
  id -1 and derives missing fields.
- `metabase/model.py`: the entity records, their defaults and aliases, and
  the `common_name` validator.
- `metabase/interface.py`: the pure rules inside the HTTP client. These are
  host cleansing, `_check_methods`, resource paths, per-operation payload
  allowlists, status classification, and flattening of the membership
  listing.

Modules, one per file:

- `Text` (`text.dfy`): Python's `rstrip`, `startswith` and `str(int)`.
- `Values` (`values.dfy`): the exceptions as a `Result`, scalar YAML/JSON
  values, records keyed by field name, and `Traverse` (a list comprehension
  that stops at the first exception).
- `Dicts` (`dicts.dfy`): insertion-ordered dicts, and lookup tables built with
  `{k: v for k, v in zip(...)}`, where a later duplicate key wins.
- `Seqs` (`seqs.dfy`): mapping, regrouping and flattening of sequences.
- `Model` (`model.dfy`): the entities, and constructing them from a record
  (`User(**record)`).
- `Interface` (`interface.dfy`): the client rules. The host lives in a class
  whose setter updates it in place.
- `Serde` (`serde.dfy`): the codec. The two loops of `serialize_memberships`
  and `serialize_pgraph` are methods proved against the functions that
  specify them.
- `Sync` (`sync.dfy`): the reconciler. `SyncUsers` is a method that
  overwrites the ids of the desired users in an array, as the source does with
  `yml.id = srv.id`. It is proved against a function `RunUsers`, and that
  function against a per-key reference plan.

Remote calls are entries of an action log: `Create`, `Update`, `Delete` or
`Reactivate` of a user. The status the server answers with is an input: the
n-th call of a pass receives `status(n)`. The order in which the Python `set`
of keys is iterated is also an input: a sequence listing the union of emails
exactly once.

## Model

| member | source | states |
|---|---|---|
| `Sync.FirstWithEmail` | metabase/sync.py:18-19 | the index found is the first user with the key; none before it has the key, and None means no user has it |
| `Sync.NextWithEmail` | metabase/sync.py:18-19 | the linear `next(...)` search returns exactly that first index |
| `Sync.FirstWithEmailAppend` | metabase/sync.py:18-19 | users after the first match are never looked at: appending users leaves the result unchanged |
| `Sync.UserDiffersIff` | metabase/sync.py:15-24 | the non-empty set difference of the tracked items holds iff the projections onto email, first_name, last_name and is_active differ |
| `Sync.Outcome` | metabase/interface.py:140-141 | create raises exactly on a status other than 200 or 202, as HTTPError; reactivate never raises; update raises exactly on 404 or 204; delete succeeds exactly on 200 or 204 |
| `Sync.Issue` | metabase/sync.py:27-38 | the calls are made in order and the first that raises ends the pass: the log grows by a prefix of the calls, every logged call but a failing last one was accepted, a returned error is the last logged call's outcome, and all calls are logged when none raises |
| `Sync.KeyActions` | metabase/sync.py:18-38 | a key fails with AttributeError iff no live user has it; otherwise at most two calls, none a create, all about that email |
| `Sync.Adopt` | metabase/sync.py:26 | the desired list keeps its length |
| `Sync.AdoptChanges` | metabase/sync.py:26 | only the first desired user of a modified key changes, and only its id, which becomes the live user's id |
| `Sync.RunUsersSticks` | metabase/sync.py:17-38 | once a key raises, later keys change nothing (the exception ends the pass) |
| `Sync.IssueOne` | metabase/sync.py:30 | a single call is logged and its outcome ends or continues the pass |
| `Sync.StepRemoved` | metabase/sync.py:33-35 | a key only the live list has emits exactly `delete(live)` |
| `Sync.StepModified` | metabase/sync.py:25-32 | a modified key gets the live id, then: reactivate then update; or delete alone; or update alone |
| `Sync.SyncUser` | metabase/sync.py:18-38 | one loop iteration, with the in-place id update and the `continue` after delete, equals one step of `RunUsers` |
| `Sync.SyncUsers` | metabase/sync.py:8-38 | the loop's calls, its exception and the new desired array are those of `RunUsers` on the old array |
| `Sync.UserPolicy` | metabase/sync.py:21-35 | the is_active policy: unchanged keys emit nothing; desired active with live inactive emits reactivate then update; desired False or None with live active emits delete only; other changes emit update of the desired user with the live id; live-only keys emit delete |
| `Sync.KeyActionsFirstOnly` | metabase/sync.py:18-19 | later duplicates in either list change neither the calls nor the id update |
| `Sync.RunUsersNeverCreates` | metabase/sync.py:36-38 | no pass ever logs a create |
| `Sync.RunUsersCrash` | metabase/sync.py:20 | the first key without a live user ends the pass with AttributeError, and the calls made for earlier keys remain |
| `Sync.StepFoundLive` | metabase/sync.py:20 | a step that does not raise has found a live user |
| `Sync.RunUsersCompletes` | metabase/sync.py:17-20 | a pass that completes found a live user for every key |
| `Sync.DesiredOnlyAborts` | metabase/sync.py:16-20 | a desired user whose email no live user has makes every pass fail |
| `Sync.RunUsersErr` | metabase/sync.py:20-38 | the only exceptions are AttributeError and the HTTP errors of the calls |
| `Sync.IssueErr` | metabase/sync.py:27-38 | a failing call raises HTTPError or NotFoundError |
| `Sync.FirstWithEmailSameEmails` | metabase/sync.py:18-19 | changing ids only leaves every search result unchanged |
| `Sync.RunUsersFollowsPlan` | metabase/sync.py:16-38 | with each email processed once, the pass makes exactly the calls of the per-key plan on the original lists; desired users of unprocessed emails are untouched, and every other change is a desired user taking the live id as the first desired user of its email |
| `Sync.RunUsersOnlyAdopts` | metabase/sync.py:16-38 | in any key order, each desired user keeps every field but its id; a changed one is the first desired user of its email, that email has a live user, and its id is now that live user's id |
| `Sync.DesiredOnlyExample` | metabase/sync.py:20 | desired [a], live [b]: in order (b, a) b is deleted and the pass then fails; in order (a, b) it fails before any call |
| `Sync.IntendedKeyActions` | metabase/sync.py:36-38 | the corrected step: a desired-only key creates the first desired user; every other key is planned as the code plans it |
| `Sync.RunIntendedAgrees` | metabase/sync.py:17-38 | where every key has a live user, the corrected loop equals the loop as written |
| `Sync.OutcomeOk` | metabase/interface.py:140 | status 200 is accepted by every user call |
| `Sync.IssueAllOk` | metabase/sync.py:27-38 | when every call is answered 200, all planned calls are made |
| `Sync.RunIntendedStep` | metabase/sync.py:17-38 | with successful calls, one more key appends exactly its planned calls and applies its id update |
| `Sync.RunIntendedOk` | metabase/sync.py:17-38 | with successful calls, the corrected pass completes, and desired users of unprocessed emails are untouched |
| `Sync.RunIntendedCreates` | metabase/sync.py:36-38 | with the corrected branch and successful calls, the pass completes and creates the first desired user of every desired-only key |
| `Sync.FirstWithName` | metabase/sync.py:51-52 | the first group with the name, or None when no group has it |
| `Sync.NextWithName` | metabase/sync.py:51-52 | the linear search returns exactly that index |
| `Sync.GroupNeverModified` | metabase/sync.py:48-58 | two groups found under the same name never differ, because the name is both key and only tracked field |
| `Sync.SyncGroups` | metabase/sync.py:41-65 | the loop's report equals `GroupReport` over the keys |
| `Sync.GroupReportSpec` | metabase/sync.py:48-65 | protected names are never reported; no group is reported modified; each name is reported at most once; removed iff only live has it; added iff only desired has it |
| `Sync.GroupReportKeys` | metabase/sync.py:50 | every reported name is one of the keys |
| `Model.CanDelete` | metabase/model.py:24-29 | every model can be deleted (a constant, as in the source; kept for completeness) |
| `Model.IsEqual` | metabase/model.py:16-22 | calling is_equal raises NotImplementedError (a constant, as in the source; kept for completeness) |
| `Model.SetCommonName` | metabase/model.py:55-57 | the result is never empty; a non-empty name is kept |
| `Model.SetCommonNameIdempotent` | metabase/model.py:55-57 | validating twice equals validating once |
| `Model.UserFields` | metabase/model.py:32-49 | `user.dict()` has exactly the declared keys |
| `Model.ParseUser` | metabase/model.py:32-57 | a parsed user has a non-empty common name, the given one if it is non-empty; a KeyError escapes only when the name is empty |
| `Model.ParseUserKeeps` | metabase/model.py:32-49 | a parsed user carries each declared field as given, None when absent (is_active may be None) |
| `Model.ParseUserDerivesName` | metabase/model.py:55-57 | an empty common name becomes first_name + " " + last_name |
| `Model.ParseUserFields` | metabase/model.py:32-57 | a user's own dict parses back to the same user, with its name validated |
| `Model.GroupFields` | metabase/model.py:357-362 | `group.dict()` has exactly id, name and member_count |
| `Model.ParseGroup` | metabase/model.py:357-362 | parsing succeeds iff id and name are present and well typed; member_count defaults to 0 when absent |
| `Model.MembershipFields` | metabase/model.py:365-370 | `membership.dict()` keys the id by its field name |
| `Model.ParseMembership` | metabase/model.py:365-370 | the id is read from `membership_id`; parsing succeeds iff the three ints are present |
| `Model.ParseMembershipAlias` | metabase/model.py:368 | a membership's own dict does not parse; with `membership_id` it does |
| `Model.ParsePermissionGraph` | metabase/model.py:373-377 | the id is read from `revision` |
| `Model.ParsePermissionGraphAlias` | metabase/model.py:376 | an id under "id" alone is rejected; under "revision" it is taken |
| `Interface.NormalizeHost` | metabase/interface.py:58-60 | the stored host starts with "http" and never ends with "/" |
| `Interface.NormalizeHostIdempotent` | metabase/interface.py:58-60 | cleansing a cleansed host changes nothing |
| `Interface.NormalizeHostScheme` | metabase/interface.py:58-60 | a value starting with "http" loses only trailing slashes; any other value gets "https://" before what is left once its slashes are stripped, and an empty or all-slash value becomes "https:" |
| `Interface.NormalizeHostExamples` | metabase/interface.py:58-60 | "example.com/" gives "https://example.com"; "httpfoo" is kept |
| `Interface.MetabaseInstance.constructor` | metabase/interface.py:30-31 | the constructor stores the cleansed host |
| `Interface.MetabaseInstance.SetHost` | metabase/interface.py:53-60 | a non-string raises TypeError and keeps the host; a string stores its cleansed form |
| `Interface.FirstDefining` | metabase/interface.py:115-117 | the first class of the MRO whose dict defines the name |
| `Interface.CheckMethods` | metabase/interface.py:113-124 | answers True iff for every name the first defining class binds it to something other than None; otherwise NotImplemented |
| `Interface.ResourcePathInjective` | metabase/interface.py:170 | different ids never share a path under one endpoint |
| `Interface.ResourcePathTrailingSlash` | metabase/interface.py:212 | a trailing slash on the endpoint does not change the path |
| `Interface.ResourcePathExample` | metabase/interface.py:252 | "/api/user/" with id 5 gives "/api/user/5" |
| `Interface.PayloadNeverSendsId` | metabase/interface.py:136-138 | no create or update payload carries the id, nor any key outside the allowlist |
| `Interface.PayloadIs` | metabase/interface.py:213-215 | the payload is the allowed, non-id, non-None fields with their values |
| `Interface.PayloadKeys` | metabase/interface.py:136-138 | with every allowed field present and not None, the payload carries exactly those |
| `Interface.PayloadDropsNull` | metabase/interface.py:213-215 | an allowed field that is None is left out |
| `Interface.UserCreatePayload` | metabase/interface.py:344-352 | a user create posts to "/api/user/" exactly first_name, last_name and email |
| `Interface.UserUpdatePayload` | metabase/interface.py:363-372 | a user update puts to the user's path first_name, last_name, email, and is_active unless it is None |
| `Interface.UserUpdateValues` | metabase/interface.py:363-372 | the values an update sends are the user's own |
| `Interface.GroupPayloads` | metabase/interface.py:818-834 | groups are created and renamed by name alone |
| `Interface.MembershipCreatePayload` | metabase/interface.py:870 | a membership is created from its group and user ids |
| `Interface.CreateStatus` | metabase/interface.py:140-141 | create succeeds exactly on 200 or 202, otherwise HTTPError |
| `Interface.NotFoundStatus` | metabase/interface.py:172-173 | get and update raise NotFoundError exactly on 404 or 204 |
| `Interface.DeleteStatus` | metabase/interface.py:254-256 | delete succeeds, with True, exactly on 200 or 204 |
| `Interface.ListMemberships` | metabase/interface.py:858-862 | one membership per inner record, as many as the inner lists hold together; fails iff some record does not validate |
| `Interface.ListMembershipsAt` | metabase/interface.py:858-862 | the j-th record of the i-th user's list becomes the membership after all those of earlier lists |
| `Seqs.FlattenIgnoresKeys` | metabase/interface.py:860 | the outer user-id keys play no part in the flattening |
| `Serde.UserRecordFields` | metabase/serde.py:22-41 | a user is written as email, first_name, last_name and is_active only |
| `Serde.SerializeUsers` | metabase/serde.py:17-43 | one record per user, in input order |
| `Serde.UserDefaults` | metabase/serde.py:48-53 | a KeyError exactly when first_name or last_name is missing |
| `Serde.DeserializeUsers` | metabase/serde.py:46-56 | an empty document gives no users; otherwise one user per record |
| `Serde.DeserializeUserKeeps` | metabase/serde.py:48-53 | a decoded user has the record's own fields, and id -1 when the record has none |
| `Serde.DeserializeUserCommonName` | metabase/serde.py:51-52 | the common name is the record's own unless it is missing or empty; then first_name + " " + last_name |
| `Serde.UserRoundTrip` | metabase/serde.py:17-56 | one user written and read back keeps email, names and is_active, with id -1 and a derived common name |
| `Serde.ReloadedAt` | metabase/serde.py:17-56 | the i-th record of a written list reads back as the i-th user reloaded |
| `Serde.UsersRoundTrip` | metabase/serde.py:17-56 | reading back written users keeps their number and order, and each keeps email, names and is_active |
| `Serde.GroupRecordFields` | metabase/serde.py:65 | a group is written as its name alone |
| `Serde.SerializeGroups` | metabase/serde.py:59-67 | one record per group, in order |
| `Serde.DeserializeGroup` | metabase/serde.py:71 | id -1 unless the record has one; member_count 0 when absent; the name as given |
| `Serde.DeserializeGroups` | metabase/serde.py:70-71 | an empty document gives no groups; otherwise one group per record |
| `Serde.GroupReloadedAt` | metabase/serde.py:59-71 | the i-th written group reads back with its name, id -1 and member count 0 |
| `Serde.GroupsRoundTrip` | metabase/serde.py:59-71 | reading back written groups keeps their names and order |
| `Dicts.LastWins` | metabase/serde.py:81-86 | a lookup table maps each key to the value of its last pair |
| `Dicts.FromPairsGet` | metabase/serde.py:138-143 | assigning pairs in order leaves every key with its last value |
| `Dicts.FromPairsDistinct` | metabase/serde.py:138-143 | pairs with distinct keys give a dict of exactly those entries, in order |
| `Serde.EmailOfId` | metabase/serde.py:81-83 | the email an id maps to belongs to a user with that id; with unique emails it maps back to the id |
| `Serde.NameOfId` | metabase/serde.py:84-86 | the same for group ids and names |
| `Serde.NameOrder` | metabase/serde.py:87 | every group name once, in first-appearance order |
| `Serde.NameOrderDistinct` | metabase/serde.py:87 | with distinct names the order is the groups' own |
| `Serde.AppendMember` | metabase/serde.py:89-91 | one iteration fails iff a lookup misses, with the KeyError of the group first; otherwise the keys are kept |
| `Serde.Aggregate` | metabase/serde.py:88-91 | the loop never adds or removes a group name |
| `Serde.AggregateSticks` | metabase/serde.py:88-91 | once the loop raises, later memberships change nothing |
| `Serde.AggregateSnoc` | metabase/serde.py:88-91 | the loop one membership further is one more append |
| `Serde.NamesHaveLists` | metabase/serde.py:85-87 | every name the group lookup gives has a list from the start |
| `Serde.AppendStep` | metabase/serde.py:89-91 | one iteration raises on the group id, then on the user id, or appends the email |
| `Serde.AppendAll` | metabase/serde.py:88-91 | the loop over the dict of lists computes `Aggregate` |
| `Serde.SerializeMemberships` | metabase/serde.py:74-95 | the method computes the document `MembershipsDoc` |
| `Serde.FirstUnresolvable` | metabase/serde.py:89-91 | the first membership a lookup misses; None iff all resolve |
| `Serde.AggregateOutcome` | metabase/serde.py:88-91 | the loop fails iff some membership does not resolve, with the KeyError of the first one |
| `Serde.AggregateMembers` | metabase/serde.py:88-91 | each group's list is the emails of its memberships, in membership order |
| `Serde.MembershipsDocOutcome` | metabase/serde.py:81-91 | serialize_memberships fails exactly on an unknown user or group id, with the first KeyError |
| `Serde.MembershipsDocShape` | metabase/serde.py:87-91 | every group name is a key, in group order, even with no members; under it are the emails of its memberships in order |
| `Serde.Tag` | metabase/serde.py:118-119 | each member of a group paired with the group name |
| `Serde.MemberPairsHas` | metabase/serde.py:118-119 | every (group, member) entry of the document is visited |
| `Serde.MemberPairsFrom` | metabase/serde.py:118-119 | every visited pair is a (group, member) entry of the document |
| `Serde.MemberPairsAt` | metabase/serde.py:118-119 | one pair per entry, in document order: member j of group i comes just after every member of the groups before it |
| `Serde.DecodeMembershipsAt` | metabase/serde.py:110-120 | a successful decoding holds one membership per (group, member) entry, in document order, with id -1 and the looked-up group and user ids |
| `Serde.DecodeMember` | metabase/serde.py:111-117 | a pair decodes iff the email and the name are known, to a membership with id -1 and the looked-up ids; otherwise the KeyError of the email first |
| `Serde.DeserializeMemberships` | metabase/serde.py:98-120 | an empty document gives no memberships; a successful one gives one membership per (group, member) entry, in document order, with id -1 and the looked-up group and user ids |
| `Serde.DecodeMembershipsOutcome` | metabase/serde.py:110-120 | decoding succeeds iff every member email and every group with members is known |
| `Serde.Images` | metabase/serde.py:89-91 | each membership as the (group name, email) pair it is written as |
| `Serde.SelectImages` | metabase/serde.py:88-91 | the pairs under one name are that group's members |
| `Serde.DocumentPairs` | metabase/serde.py:87-95 | reading the document's entries gives the memberships' pairs grouped by name |
| `Serde.MembershipsDocPairs` | metabase/serde.py:74-95 | the written document's entries are the memberships' pairs grouped by group |
| `Serde.GroupedImages` | metabase/serde.py:87-91 | regrouping loses and duplicates no pair |
| `Serde.ImagesResolve` | metabase/serde.py:104-117 | with unique emails and names each pair resolves back to its membership's ids |
| `Serde.DecodeKnownPairs` | metabase/serde.py:104-120 | when every (group, member) pair names a known group and a known email, decoding raises no KeyError and resolves each pair through the email and group lookups |
| `Serde.MembershipsRoundTrip` | metabase/serde.py:74-120 | with unique emails and names, decoding the encoded memberships gives the same multiset of memberships, each with id -1 |
| `Serde.SerializePerms` | metabase/serde.py:140-142 | the inner loop computes `PermsDoc` |
| `Serde.GraphStep` | metabase/serde.py:139-143 | one outer iteration raises from the inner loop, then on the group id, or assigns one more pair |
| `Serde.SerializeGraph` | metabase/serde.py:138-143 | the outer loop computes `GraphDoc` |
| `Serde.SerializePGraph` | metabase/serde.py:123-147 | serialize_pgraph computes `PGraphDoc` |
| `Serde.PermsDocOutcome` | metabase/serde.py:141-142 | the inner loop fails iff a database id is unknown, with the KeyError of the first one |
| `Serde.PermsDocLastWins` | metabase/serde.py:141-142 | each database's rules land under its name; the later of two same-named databases wins |
| `Serde.PermsDocExact` | metabase/serde.py:141-142 | with distinct names the rules are exactly re-keyed, in order |
| `Serde.GraphDocOutcome` | metabase/serde.py:139-143 | the graph fails iff an id is unknown; an unknown database is reported before its group |
| `Serde.PGraphPairs` | metabase/serde.py:139-143 | the renamed pairs the outer loop assigns |
| `Serde.GraphDocLastWins` | metabase/serde.py:139-143 | each group's rules land under its name; the later of two same-named groups wins |
| `Serde.DatabaseNamesDistinct` | metabase/serde.py:130-132 | distinct database ids have distinct names when names are unique |
| `Serde.GroupNamesDistinct` | metabase/serde.py:133-135 | distinct group ids have distinct names when names are unique |
| `Serde.PGraphDocExact` | metabase/serde.py:123-147 | with unique names, `groups[name(g)][name(d)] = rule` for every g, d and rule of the graph, in its order, and nothing else |

## Left out

- YAML reading and writing: documents are Dafny values. A sequence is a
  `seq`, a mapping an ordered sequence of entries, and an empty file is `None`.
- The HTTP session, tokens, headers, async execution, and response bodies:
  a request is a value and a response is only its status.
- The `get`/`post`/`put`/`delete` wrappers, `create_from_kwargs`,
  `update_by_id`, `archive`, `__subclasshook__`, and the card, field,
  database, table, metric, segment and dataset endpoints. These are network
  plumbing.
- The `print` lines of `sync_users` are not logged. Those of `sync_groups`
  are the report that `SyncGroups` returns.
- User timestamps (`last_login`, `date_joined`, `updated_at`),
  `login_attributes` and `group_ids` are not fields of the model. Of
  `Database`, only `id` and `name` are kept.
- Pydantic coercion: values are strictly typed, where pydantic v1 coerces.
  For example, the string "1" is not accepted as an int id, an int first
  name 5 is rejected rather than turned into "5", and `is_active: "yes"` is
  rejected rather than read as True.
- The unused `pgraph_obj` and `groups` locals of `serialize_pgraph`
  (metabase/serde.py:136-137) have no effect and are not modelled.
- The lookup tables are built without checking for duplicate keys, as the
  code does: a later entry overrides an earlier one and no resolution error
  is raised.
- `deserialize_memberships` over a group whose members entry is not a list
  is not modelled. The document type only holds lists.
- The `reactivate` call's response is not checked by the code, and the model
  does the same.
- `SyncUsers` requires the key order to list the email union once each
  (`KeyOrder`). `SyncGroups` takes any key sequence.

## Findings

| source | as written | input that shows it | evidently intended | confidence | as-written member | corrected member |
|---|---|---|---|---|---|---|
| metabase/sync.py:20 | `srv.is_equal` runs before the None checks, so a key with no live user raises AttributeError and the create branch (lines 36-38) is unreachable | desired `[a@x.com]`, live `[b@x.com]`: in key order (b, a), b is deleted and the pass then fails; in order (a, b), it fails before any call | a desired-only user is created, and the pass goes on | high; not executed | `Sync.DesiredOnlyExample` | `Sync.RunIntendedCreates` |

`SyncUsers` models the code as written, crash included. The corrected loop
(`RunIntended`, built on `IntendedKeyActions`) is proved equal to it wherever
every key has a live user.
